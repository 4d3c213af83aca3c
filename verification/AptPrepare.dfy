/**
 The preparation of a runner's apt sources: plan the rewrite of every file, refuse if one of them is
 not plainly one thing or the other, and only then write. Other processes may write files meanwhile.
 */
module AptPrepare {
  import opened Wrappers
  import opened AptSources

  /** What stands under a path: text, bytes that are not UTF-8, or no regular file at all. */
  datatype Entry = Text(text: string) | Undecodable | Special

  type Files = map<string, Entry>

  datatype Change = Change(path: string, before: string, after: string)

  datatype PrepareError =
    | LinkedDirectory
    | NotRegular(path: string)
    | NotUtf8(path: string)
    | Refused(path: string, refusal: Refusal)
    | ChangedMeanwhile(path: string)

  predicate Has(env: map<string, string>, name: string, value: string) { name in env && env[name] == value }

  predicate HostedLinux(env: map<string, string>) {
    && Has(env, "GITHUB_ACTIONS", "true")
    && Has(env, "RUNNER_OS", "Linux")
    && Has(env, "RUNNER_ENVIRONMENT", "github-hosted")
  }

  lemma HostedIsRead(env: map<string, string>)
    ensures HostedLinux(env) <==>
      {("GITHUB_ACTIONS", "true"), ("RUNNER_OS", "Linux"), ("RUNNER_ENVIRONMENT", "github-hosted")} <= env.Items
  {
  }

  /** `path.suffix == ".sources"`: a name that is nothing but the ending has no suffix. */
  predicate IsDeb822(path: string) {
    var n := |path| - |".sources"|;
    n > 0 && path[n..] == ".sources" && path[n - 1] != '/'
  }

  lemma SuffixIsRead(folder: string, name: string)
    requires '/' !in name
    ensures IsDeb822(folder + "/" + name) <==> |name| > 8 && name[|name| - 8..] == ".sources"
  {
    var path, n := folder + "/" + name, |folder + "/" + name| - 8;
    assert path[|folder|] == '/';
    assert |name| >= 8 ==> path[n..] == name[|name| - 8..];
    assert |name| > 8 ==> path[n - 1] == name[|name| - 9] && name[|name| - 9] in name;
    if 0 <= n <= |folder| {
      assert path[n..][|folder| - n] == '/';
    }
  }

  function Rewritten(path: string, text: string): Result<string, Refusal> {
    if IsDeb822(path) then SourcesOutput(text) else ListOutput(text)
  }

  /** Rewriting a file again changes nothing more. */
  lemma RewrittenIsStable(path: string, text: string, output: string)
    requires Rewritten(path, text) == Ok(output)
    ensures Rewritten(path, output) == Ok(output)
  {
    if IsDeb822(path) {
      SourcesAreRewritten(text, output);
    } else {
      ListIsRewritten(text, output);
    }
  }

  /** What the file at `path` comes to: an error, no change, or a change. */
  function Considered(files: Files, path: string): Result<seq<Change>, PrepareError> {
    if path !in files then Ok([])
    else
      match files[path]
      case Special => Err(NotRegular(path))
      case Undecodable => Err(NotUtf8(path))
      case Text(text) =>
        match Rewritten(path, text)
        case Err(refusal) => Err(Refused(path, refusal))
        case Ok(after) => Ok(if after == text then [] else [Change(path, text, after)])
  }

  function Plan(files: Files, paths: seq<string>): Result<seq<Change>, PrepareError> {
    if paths == [] then Ok([])
    else
      match Plan(files, paths[..|paths| - 1])
      case Err(e) => Err(e)
      case Ok(earlier) =>
        match Considered(files, paths[|paths| - 1])
        case Err(e) => Err(e)
        case Ok(last) => Ok(earlier + last)
  }

  predicate Distinct(paths: seq<string>) { forall i, j :: 0 <= i < j < |paths| ==> paths[i] != paths[j] }

  /** Changes to different files, each from what stands in `files` to its rewrite. */
  predicate IsPlanFor(files: Files, changes: seq<Change>) {
    && (forall i, j :: 0 <= i < j < |changes| ==> changes[i].path != changes[j].path)
    && forall i :: 0 <= i < |changes| ==>
         var c := changes[i];
         && c.path in files && files[c.path] == Text(c.before)
         && Rewritten(c.path, c.before) == Ok(c.after) && c.after != c.before
  }

  predicate Covers(changes: seq<Change>, path: string) {
    exists i :: 0 <= i < |changes| && changes[i].path == path
  }

  /** The file at `path` is refused, with `e`. */
  predicate Refuses(files: Files, path: string, e: PrepareError) {
    path in files &&
    match files[path]
    case Special => e == NotRegular(path)
    case Undecodable => e == NotUtf8(path)
    case Text(text) => Rewritten(path, text).Err? && e == Refused(path, Rewritten(path, text).error)
  }

  /** The file at `path` reads as text, and its rewrite is another. */
  predicate Changes(files: Files, path: string) {
    && path in files && files[path].Text?
    && Rewritten(path, files[path].text).Ok? && Rewritten(path, files[path].text).value != files[path].text
  }

  ghost predicate NoneRefused(files: Files, paths: seq<string>) {
    forall i, e :: 0 <= i < |paths| ==> !Refuses(files, paths[i], e)
  }

  /** The changes come in the order of the paths. */
  predicate InOrder(paths: seq<string>, changes: seq<Change>) {
    forall i, j, k, l | 0 <= i < j < |changes| && 0 <= k < |paths| && 0 <= l < |paths| ::
      paths[k] == changes[i].path && paths[l] == changes[j].path ==> k < l
  }

  /**
   Planning fails exactly when some file is refused, with the fault of the first that is; otherwise
   the plan holds every file whose rewrite differs from it, once and in order, and no other.
   */
  lemma {:induction false} PlanIsExact(files: Files, paths: seq<string>)
    requires Distinct(paths)
    ensures Plan(files, paths).Err? ==> exists i ::
      0 <= i < |paths| && NoneRefused(files, paths[..i]) && Refuses(files, paths[i], Plan(files, paths).error)
    ensures Plan(files, paths).Ok? ==>
      var changes := Plan(files, paths).value;
      && NoneRefused(files, paths) && IsPlanFor(files, changes) && InOrder(paths, changes)
      && forall path :: Covers(changes, path) <==> path in paths && Changes(files, path)
  {
    if paths != [] {
      var init, last := paths[..|paths| - 1], paths[|paths| - 1];
      assert paths == init + [last];
      assert forall i :: 0 <= i < |paths| ==> init[..i] == paths[..i];
      PlanIsExact(files, init);
      ConsideredIsRead(files, last);
      hide IsPlanFor, Covers, Considered, InOrder, Changes;
      if Plan(files, paths).Ok? {
        PlanOfOneMore(files, init, last, Plan(files, init).value, Considered(files, last).value);
      }
    }
  }

  lemma ConsideredIsRead(files: Files, path: string)
    ensures Considered(files, path).Err? ==> Refuses(files, path, Considered(files, path).error)
    ensures Considered(files, path).Ok? ==>
      && (forall e :: !Refuses(files, path, e))
      && Considered(files, path).value == if Changes(files, path)
           then [Change(path, files[path].text, Rewritten(path, files[path].text).value)] else []
  {
    hide Rewritten;
  }

  lemma PlanOfOneMore(files: Files, init: seq<string>, last: string, earlier: seq<Change>, later: seq<Change>)
    requires last !in init && Considered(files, last) == Ok(later)
    requires IsPlanFor(files, earlier) && InOrder(init, earlier)
    requires forall path :: Covers(earlier, path) <==> path in init && Changes(files, path)
    ensures IsPlanFor(files, earlier + later) && InOrder(init + [last], earlier + later)
    ensures forall path :: Covers(earlier + later, path) <==> path in init + [last] && Changes(files, path)
  {
    ConsideredIsRead(files, last);
    CoversConcat(earlier, later);
    hide Rewritten, Considered;
    assert later != [] ==> |later| == 1 && later[0].path == last && Covers(later, last);
    assert forall path :: Covers(later, path) ==> path == last;
    assert forall i :: 0 <= i < |earlier| ==> Covers(earlier, earlier[i].path);
  }

  lemma CoversConcat(a: seq<Change>, b: seq<Change>)
    ensures forall path :: Covers(a + b, path) <==> Covers(a, path) || Covers(b, path)
  {
    forall path
      ensures Covers(a + b, path) <==> Covers(a, path) || Covers(b, path)
    {
      if Covers(a, path) {
        var i :| 0 <= i < |a| && a[i].path == path;
        assert (a + b)[i].path == path;
      }
      if Covers(b, path) {
        var i :| 0 <= i < |b| && b[i].path == path;
        assert (a + b)[|a| + i].path == path;
      }
    }
  }

  // Writing.

  /** What other processes write right before step `i` of the write phase. */
  type Meddling = nat -> Files

  /** The files, and how many changes were written before one was found changed meanwhile. */
  function Written(files: Files, changes: seq<Change>, meddling: Meddling, step: nat): (Files, nat)
    requires step <= |changes|
    ensures step <= Written(files, changes, meddling, step).1 <= |changes|
    decreases |changes| - step
  {
    if step == |changes| then (files, step)
    else
      var seen, c := files + meddling(step), changes[step];
      if c.path !in seen || seen[c.path] != Text(c.before) then (seen, step)
      else Written(seen[c.path := Text(c.after)], changes, meddling, step + 1)
  }

  class AptRoot {
    var files: Files

    constructor (files: Files)
      ensures this.files == files
    {
      this.files := files;
    }

    method PlanChanges(paths: seq<string>) returns (changes: Result<seq<Change>, PrepareError>)
      ensures changes == Plan(files, paths)
    {
      hide Rewritten;
      var planned: seq<Change> := [];
      for n := 0 to |paths|
        invariant Plan(files, paths[..n]) == Ok(planned)
      {
        var path := paths[n];
        assert paths[..n + 1][..n] == paths[..n];
        assert planned + [] == planned;
        if path !in files {
          continue;
        }
        if files[path].Special? {
          PlanStopsAt(files, paths, n);
          return Err(NotRegular(path));
        }
        if files[path].Undecodable? {
          PlanStopsAt(files, paths, n);
          return Err(NotUtf8(path));
        }
        var before := files[path].text;
        var transformed;
        if IsDeb822(path) {
          transformed := Deb822Source(before);
        } else {
          transformed := ListSource(before);
        }
        assert transformed == Rewritten(path, before) by {
          RewrittenByKind(path, before);
        }
        if transformed.Err? {
          PlanStopsAt(files, paths, n);
          return Err(Refused(path, transformed.error));
        }
        if transformed.value != before {
          planned := planned + [Change(path, before, transformed.value)];
        }
      }
      assert paths[..|paths|] == paths;
      return Ok(planned);
    }

    /** `prepare`; `linked` tells that the root or one of its source directories is a link. */
    method Prepare(env: map<string, string>, linked: bool, paths: seq<string>, meddling: Meddling)
        returns (changed: Result<seq<string>, PrepareError>)
      modifies this
      ensures !HostedLinux(env) ==> changed == Ok([])
      ensures HostedLinux(env) && linked ==> changed == Err(LinkedDirectory)
      ensures !HostedLinux(env) || linked ==> files == old(files)
      ensures HostedLinux(env) && !linked ==>
        match Plan(old(files), paths)
        case Err(e) => changed == Err(e) && files == old(files)
        case Ok(changes) =>
          var (after, n) := Written(old(files), changes, meddling, 0);
          && files == after
          && changed == if n == |changes| then Ok(PathsOf(changes)) else Err(ChangedMeanwhile(changes[n].path))
    {
      if !HostedLinux(env) {
        return Ok([]);
      }
      if linked {
        return Err(LinkedDirectory);
      }
      var plan := PlanChanges(paths);
      if plan.Err? {
        return Err(plan.error);
      }
      var changes := plan.value;
      for step := 0 to |changes|
        invariant Written(old(files), changes, meddling, 0) == Written(files, changes, meddling, step)
      {
        var c := changes[step];
        files := files + meddling(step);
        if c.path !in files || files[c.path] != Text(c.before) {
          return Err(ChangedMeanwhile(c.path));
        }
        files := files[c.path := Text(c.after)];
      }
      return Ok(PathsOf(changes));
    }
  }

  function PathsOf(changes: seq<Change>): seq<string> {
    seq(|changes|, i requires 0 <= i < |changes| => changes[i].path)
  }

  lemma RewrittenByKind(path: string, text: string)
    ensures Rewritten(path, text) == if IsDeb822(path) then SourcesOutput(text) else ListOutput(text)
  {
  }

  lemma {:induction false} PlanStopsAt(files: Files, paths: seq<string>, n: nat)
    requires n < |paths| && Plan(files, paths[..n]).Ok? && Considered(files, paths[n]).Err?
    ensures Plan(files, paths) == Err(Considered(files, paths[n]).error)
  {
    hide Considered;
    var init := paths[..|paths| - 1];
    if n < |init| {
      assert init[..n] == paths[..n];
      PlanStopsAt(files, init, n);
    } else {
      assert init == paths[..n];
    }
  }

  /** What stands under `path` when step `step` looks, if nothing was written there before. */
  function Seen(files: Files, meddling: Meddling, from: nat, step: nat, path: string): Option<Entry>
    requires from <= step
    decreases step - from
  {
    if path in meddling(step) then Some(meddling(step)[path])
    else if from == step then if path in files then Some(files[path]) else None
    else Seen(files, meddling, from, step - 1, path)
  }

  lemma {:induction false} SeenLater(
      files: Files, meddling: Meddling, from: nat, step: nat, path: string, other: string, entry: Entry)
    requires from < step && path != other
    ensures Seen(files, meddling, from, step, path)
      == Seen((files + meddling(from))[other := entry], meddling, from + 1, step, path)
    decreases step - from
  {
    if path !in meddling(step) && from + 1 < step {
      SeenLater(files, meddling, from, step - 1, path, other, entry);
    }
  }

  predicate Undisturbed(files: Files, changes: seq<Change>, meddling: Meddling, from: nat, step: nat)
    requires from <= step < |changes|
  {
    Seen(files, meddling, from, step, changes[step].path) == Some(Text(changes[step].before))
  }

  /**
   Exactly the changes before the first disturbed file are written: all of them if and only if, at
   its turn, every planned file still stands as it was planned.
   */
  lemma {:induction false} WritesUpToFirstDisturbed(
      files: Files, changes: seq<Change>, meddling: Meddling, from: nat)
    requires from <= |changes|
    requires forall i, j :: from <= i < j < |changes| ==> changes[i].path != changes[j].path
    ensures var n := Written(files, changes, meddling, from).1;
            && (forall i :: from <= i < n ==> Undisturbed(files, changes, meddling, from, i))
            && (n < |changes| ==> !Undisturbed(files, changes, meddling, from, n))
    decreases |changes| - from
  {
    if from < |changes| {
      var c := changes[from];
      if Undisturbed(files, changes, meddling, from, from) {
        var next := (files + meddling(from))[c.path := Text(c.after)];
        WritesUpToFirstDisturbed(next, changes, meddling, from + 1);
        forall i | from < i < |changes|
          ensures Undisturbed(files, changes, meddling, from, i) <==> Undisturbed(next, changes, meddling, from + 1, i)
        {
          SeenLater(files, meddling, from, i, changes[i].path, c.path, Text(c.after));
        }
      }
    }
  }

  /** What was put under `path` last by the steps from `from` to before `step`, each a change after some meddling. */
  function Left(
      files: Files, changes: seq<Change>, meddling: Meddling, from: nat, step: nat, path: string): Option<Entry>
    requires from <= step <= |changes|
    decreases step - from
  {
    if from == step then if path in files then Some(files[path]) else None
    else if changes[step - 1].path == path then Some(Text(changes[step - 1].after))
    else if path in meddling(step - 1) then Some(meddling(step - 1)[path])
    else Left(files, changes, meddling, from, step - 1, path)
  }

  lemma {:induction false} LeftLater(
      files: Files, changes: seq<Change>, meddling: Meddling, from: nat, step: nat, path: string)
    requires from < step <= |changes|
    ensures var c := changes[from];
      Left(files, changes, meddling, from, step, path)
      == Left((files + meddling(from))[c.path := Text(c.after)], changes, meddling, from + 1, step, path)
    decreases step - from
  {
    if from + 1 < step {
      LeftLater(files, changes, meddling, from, step - 1, path);
    }
  }

  /** What stands under a path in the end: whatever was put there last, by a change or by another process. */
  lemma {:induction false} WritesLeaveTheLast(
      files: Files, changes: seq<Change>, meddling: Meddling, from: nat, path: string)
    requires from <= |changes|
    ensures var (after, n) := Written(files, changes, meddling, from);
      (if path in after then Some(after[path]) else None)
      == if n < |changes| && path in meddling(n) then Some(meddling(n)[path])
         else Left(files, changes, meddling, from, n, path)
    decreases |changes| - from
  {
    if from < |changes| {
      var seen, c := files + meddling(from), changes[from];
      if c.path in seen && seen[c.path] == Text(c.before) {
        var next := seen[c.path := Text(c.after)];
        WritesLeaveTheLast(next, changes, meddling, from + 1, path);
        LeftLater(files, changes, meddling, from, Written(next, changes, meddling, from + 1).1, path);
      }
    }
  }

  /** Nobody else writes anything while the first `n` changes are made. */
  predicate Quiet(meddling: Meddling, n: nat) { forall i :: 0 <= i < n ==> meddling(i) == map[] }

  function Applied(files: Files, changes: seq<Change>): Files {
    if changes == [] then files
    else
      var c := changes[|changes| - 1];
      Applied(files, changes[..|changes| - 1])[c.path := Text(c.after)]
  }

  lemma {:induction false} AppliedAt(files: Files, changes: seq<Change>, path: string)
    requires forall i, j :: 0 <= i < j < |changes| ==> changes[i].path != changes[j].path
    ensures !Covers(changes, path) ==>
      (path in Applied(files, changes) <==> path in files) &&
      (path in files ==> Applied(files, changes)[path] == files[path])
    ensures forall i :: 0 <= i < |changes| && changes[i].path == path ==>
      path in Applied(files, changes) && Applied(files, changes)[path] == Text(changes[i].after)
  {
    if changes != [] {
      var init := changes[..|changes| - 1];
      AppliedAt(files, init, path);
      assert forall i :: 0 <= i < |init| ==> init[i] == changes[i];
      if Covers(init, path) {
        var i :| 0 <= i < |init| && init[i].path == path;
        assert changes[i].path == path;
      } else if changes[|init|].path == path {
        assert Covers(changes, path);
      }
    }
  }

  lemma QuietStep(files: Files, changes: seq<Change>, meddling: Meddling, step: nat)
    requires IsPlanFor(files, changes) && Quiet(meddling, |changes|) && step < |changes|
    ensures var c, now := changes[step], Applied(files, changes[..step]);
      && now + meddling(step) == now && c.path in now && now[c.path] == Text(c.before)
      && now[c.path := Text(c.after)] == Applied(files, changes[..step + 1])
  {
    hide Rewritten;
    var c, now := changes[step], Applied(files, changes[..step]);
    AppliedAt(files, changes[..step], c.path);
    assert !Covers(changes[..step], c.path);
    assert now + map[] == now;
    assert changes[..step + 1][..step] == changes[..step];
  }

  lemma {:induction false} QuietWritesAll(files: Files, changes: seq<Change>, meddling: Meddling, step: nat)
    requires IsPlanFor(files, changes) && Quiet(meddling, |changes|) && step <= |changes|
    ensures Written(Applied(files, changes[..step]), changes, meddling, step) == (Applied(files, changes), |changes|)
    decreases |changes| - step
  {
    hide IsPlanFor, Quiet, Applied;
    if step == |changes| {
      assert changes[..step] == changes;
    } else {
      QuietStep(files, changes, meddling, step);
      QuietWritesAll(files, changes, meddling, step + 1);
    }
  }

  /**
   With nobody else writing, preparation is all or nothing: the files of a successful plan all take
   on their rewrites, every other file stays, and a second run finds nothing left to change.
   */
  lemma PreparationIsComplete(files: Files, paths: seq<string>, meddling: Meddling)
    requires Distinct(paths) && Plan(files, paths).Ok? && Quiet(meddling, |Plan(files, paths).value|)
    ensures var (after, n) := Written(files, Plan(files, paths).value, meddling, 0);
            && n == |Plan(files, paths).value|
            && after.Keys == files.Keys
            && (forall path :: path in files ==>
                 if path in paths then
                   files[path].Text? && after[path].Text?
                   && Rewritten(path, files[path].text) == Ok(after[path].text)
                 else after[path] == files[path])
            && Plan(after, paths) == Ok([])
  {
    hide Rewritten;
    var changes := Plan(files, paths).value;
    PlanIsExact(files, paths);
    QuietWritesAll(files, changes, meddling, 0);
    assert changes[..0] == [];
    var after := Applied(files, changes);
    forall path
      ensures path in after <==> path in files
      ensures path in files ==>
        if path in paths then
          files[path].Text? && after[path].Text? && Rewritten(path, files[path].text) == Ok(after[path].text)
        else after[path] == files[path]
    {
      AppliedAt(files, changes, path);
      AppliedRewrites(files, paths, path);
    }
    NothingLeft(files, after, paths);
  }

  lemma AppliedRewrites(files: Files, paths: seq<string>, path: string)
    requires Distinct(paths) && Plan(files, paths).Ok?
    ensures var after := Applied(files, Plan(files, paths).value);
            && (path in after <==> path in files)
            && (path in files ==>
                 if path in paths then
                   files[path].Text? && after[path].Text? && Rewritten(path, files[path].text) == Ok(after[path].text)
                 else after[path] == files[path])
  {
    hide Rewritten;
    var changes := Plan(files, paths).value;
    PlanIsExact(files, paths);
    AppliedAt(files, changes, path);
    if Covers(changes, path) {
      var i :| 0 <= i < |changes| && changes[i].path == path;
      assert Rewritten(path, changes[i].before) == Ok(changes[i].after);
    } else if path in paths && path in files {
      var i :| 0 <= i < |paths| && paths[i] == path;
      ConsideredIsRead(files, paths[i]);
      if Considered(files, path).Err? {
        assert Refuses(files, paths[i], Considered(files, path).error);
      }
    }
  }

  lemma {:induction false} NothingLeft(files: Files, after: Files, paths: seq<string>)
    requires forall path :: path in after && path in paths ==>
      path in files && files[path].Text? && after[path].Text?
      && Rewritten(path, files[path].text) == Ok(after[path].text)
    ensures Plan(after, paths) == Ok([])
  {
    hide Rewritten;
    if paths != [] {
      var init, last := paths[..|paths| - 1], paths[|paths| - 1];
      NothingLeft(files, after, init);
      var none: seq<Change> := [];
      assert none + none == none;
      if last in after {
        RewrittenIsStable(last, files[last].text, after[last].text);
      }
    }
  }
}
