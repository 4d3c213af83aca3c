/**
 The layered configuration merge of the ACP client (`deep_merge` and `build_codex_config_env`):
 what a merge means path by path, its algebra, and the configuration it builds.
 */
module ConfigMerge {
  import opened Wrappers
  import opened Json

  type Fields = map<string, Json>

  /** The merge as a function: objects merge member by member, anything else is replaced. */
  function Overlaid(base: Json, overlay: Json): Json
    decreases overlay
  {
    if base.Obj? && overlay.Obj? then
      Obj(map k | k in base.fields.Keys + overlay.fields.Keys ::
            if k !in overlay.fields then base.fields[k]
            else if k !in base.fields then overlay.fields[k]
            else Overlaid(base.fields[k], overlay.fields[k]))
    else overlay
  }

  function Merged(base: Fields, overlay: Fields): Fields {
    Overlaid(Obj(base), Obj(overlay)).fields
  }

  /** Some object on the way down `path` is replaced by a value of `overlay` that is no object. */
  predicate Cut(overlay: Json, path: seq<string>) {
    |path| >= 2 &&
    match overlay.Get(path[0])
    case Some(child) => !child.Obj? || Cut(child, path[1..])
    case None => false
  }

  /** `deep_merge`: one pass over the overlay, recursing where both sides hold an object. */
  method DeepMerge(base: Fields, overlay: Fields) returns (merged: Fields)
    ensures merged == Merged(base, overlay)
    decreases Obj(overlay)
  {
    merged := base;
    var todo := overlay.Keys;
    while todo != {}
      invariant todo <= overlay.Keys
      invariant merged.Keys == base.Keys + (overlay.Keys - todo)
      invariant forall k :: k in base && (k !in overlay || k in todo) ==> merged[k] == base[k]
      invariant forall k :: k in overlay && k !in todo ==>
        merged[k] == if k in base then Overlaid(base[k], overlay[k]) else overlay[k]
      decreases todo
    {
      var k :| k in todo;
      todo := todo - {k};
      var overlayVal := overlay[k];
      if k in merged && merged[k].Obj? && overlayVal.Obj? {
        assert overlayVal < Obj(overlay);
        var inner := DeepMerge(merged[k].fields, overlayVal.fields);
        merged := merged[k := Obj(inner)];
      } else {
        merged := merged[k := overlayVal];
      }
    }
    assert merged.Keys == Merged(base, overlay).Keys;
  }

  lemma {:induction false} CutPathIsUnbound(overlay: Json, path: seq<string>)
    requires Cut(overlay, path)
    ensures At(overlay, path) == None
    decreases |path|
  {
    var child := overlay.fields[path[0]];
    if child.Obj? {
      CutPathIsUnbound(child, path[1..]);
    }
  }

  /**
   The merge, read path by path: an overlay object is laid over what the base has there, any other
   overlay value stands as it is, an unbound path keeps the base's value unless the overlay put a
   value that is no object above it. The cases exclude each other and cover every path.
   */
  lemma {:induction false} MergeAtPath(base: Json, overlay: Json, path: seq<string>)
    requires base.Obj? && overlay.Obj? && path != []
    ensures Cut(overlay, path) ==>
      At(overlay, path) == None && At(Overlaid(base, overlay), path) == None
    ensures At(overlay, path).Some? ==>
      At(Overlaid(base, overlay), path) ==
      match At(base, path)
      case Some(below) => Some(Overlaid(below, At(overlay, path).value))
      case None => At(overlay, path)
    ensures At(overlay, path).Some? && !At(overlay, path).value.Obj? ==>
      At(Overlaid(base, overlay), path) == At(overlay, path)
    ensures At(overlay, path).None? && !Cut(overlay, path) ==>
      At(Overlaid(base, overlay), path) == At(base, path)
    decreases |path|
  {
    var k, rest := path[0], path[1..];
    if Cut(overlay, path) {
      CutPathIsUnbound(overlay, path);
    }
    var merged := Overlaid(base, overlay);
    if k in base.fields && k in overlay.fields {
      var b, o := base.fields[k], overlay.fields[k];
      assert merged.fields[k] == Overlaid(b, o);
      if rest == [] {
        assert At(overlay, path) == At(o, rest) == Some(o);
      } else {
        if b.Obj? && o.Obj? {
          MergeAtPath(b, o, rest);
        } else {
          assert At(b, rest).None? || At(o, rest).None?;
        }
      }
    } else {
      assert merged.Get(k) == if k in overlay.fields then overlay.Get(k) else base.Get(k);
    }
  }

  /** A base value that is no object is found again exactly when nothing of the overlay hides it. */
  lemma {:induction false} BaseLeafSurvives(base: Json, overlay: Json, path: seq<string>, leaf: Json)
    requires base.Obj? && overlay.Obj? && path != [] && !leaf.Obj?
    requires At(base, path) == Some(leaf)
    ensures At(Overlaid(base, overlay), path) == Some(leaf) <==>
      !Cut(overlay, path) && (At(overlay, path) == None || At(overlay, path) == Some(leaf))
  {
    MergeAtPath(base, overlay, path);
  }

  /** Merging a layer that is already in changes nothing. */
  lemma {:induction false} MergeIsIdempotent(base: Json, overlay: Json)
    ensures Overlaid(overlay, overlay) == overlay
    ensures Overlaid(Overlaid(base, overlay), overlay) == Overlaid(base, overlay)
    decreases overlay
  {
    if overlay.Obj? {
      forall k | k in overlay.fields
        ensures Overlaid(overlay.fields[k], overlay.fields[k]) == overlay.fields[k]
      {
        MergeIsIdempotent(overlay.fields[k], overlay.fields[k]);
      }
      assert Overlaid(overlay, overlay).fields == overlay.fields;
      if base.Obj? {
        var once := Overlaid(base, overlay);
        forall k | k in base.fields && k in overlay.fields
          ensures Overlaid(once.fields[k], overlay.fields[k]) == once.fields[k]
        {
          MergeIsIdempotent(base.fields[k], overlay.fields[k]);
        }
        assert Overlaid(once, overlay).fields == once.fields;
      }
    }
  }

  /** Nothing of `low` shows once `high` is laid over it. */
  predicate Covers(high: Json, low: Json)
    decreases high
  {
    high.Obj? && low.Obj? ==>
      forall k :: k in low.fields ==>
        k in high.fields && Covers(high.fields[k], low.fields[k])
  }

  lemma {:induction false} CoveredLayerIsInvisible(low: Json, high: Json)
    ensures Overlaid(low, high) == high <==> Covers(high, low)
    decreases high
  {
    if high.Obj? && low.Obj? {
      var over := Overlaid(low, high);
      forall k | k in low.fields && k in high.fields
        ensures Overlaid(low.fields[k], high.fields[k]) == high.fields[k]
                <==> Covers(high.fields[k], low.fields[k])
      {
        CoveredLayerIsInvisible(low.fields[k], high.fields[k]);
      }
      if Covers(high, low) {
        assert over.fields == high.fields;
      } else {
        var k :| k in low.fields && !(k in high.fields && Covers(high.fields[k], low.fields[k]));
        assert k in over.fields;
        assert k in high.fields ==> over.fields[k] != high.fields[k];
      }
    }
  }

  /**
   The shapes on which three layers may be grouped either way: wherever the middle layer holds a
   value that is no object between two objects, the top object covers the bottom one.
   */
  predicate Groupable(a: Json, b: Json, c: Json)
    decreases c
  {
    a.Obj? && c.Obj? ==>
      if b.Obj? then
        forall k :: k in a.fields && k in b.fields && k in c.fields ==>
          Groupable(a.fields[k], b.fields[k], c.fields[k])
      else Covers(c, a)
  }

  /** Merging is associative on groupable layers, and on no others. */
  lemma {:induction false} MergeAssociatesExactlyWhenGroupable(a: Json, b: Json, c: Json)
    ensures Overlaid(Overlaid(a, b), c) == Overlaid(a, Overlaid(b, c)) <==> Groupable(a, b, c)
    decreases c
  {
    if a.Obj? && c.Obj? {
      if b.Obj? {
        var left, right := Overlaid(Overlaid(a, b), c), Overlaid(a, Overlaid(b, c));
        assert left.fields.Keys == right.fields.Keys;
        forall k | k in left.fields
          ensures left.fields[k] == right.fields[k] <==>
            (k in a.fields && k in b.fields && k in c.fields ==>
               Groupable(a.fields[k], b.fields[k], c.fields[k]))
        {
          if k in a.fields && k in b.fields && k in c.fields {
            MergeAssociatesExactlyWhenGroupable(a.fields[k], b.fields[k], c.fields[k]);
          }
        }
        if Groupable(a, b, c) {
          assert left.fields == right.fields;
        } else {
          var k :| k in a.fields && k in b.fields && k in c.fields
                   && !Groupable(a.fields[k], b.fields[k], c.fields[k]);
          assert k in left.fields && left.fields[k] != right.fields[k];
        }
      } else {
        CoveredLayerIsInvisible(a, c);
      }
    }
  }

  /** Layers for which the grouping matters: an object, a number over it, an object over that. */
  lemma MergeIsNotAssociative()
    ensures exists a: Json, b: Json, c: Json ::
      a.Obj? && b.Obj? && c.Obj?
      && Overlaid(Overlaid(a, b), c) != Overlaid(a, Overlaid(b, c))
  {
    hide Overlaid, Merged;
    var a := Obj(map["k" := Obj(map["x" := Num(1)])]);
    var b := Obj(map["k" := Num(1)]);
    var c := Obj(map["k" := Obj(map[])]);
    assert "x" in a.fields["k"].fields;
    assert !Covers(c.fields["k"], a.fields["k"]);
    assert !Groupable(a.fields["k"], b.fields["k"], c.fields["k"]);
    assert "k" in a.fields && "k" in b.fields && "k" in c.fields;
    assert !Groupable(a, b, c);
    MergeAssociatesExactlyWhenGroupable(a, b, c);
  }

  /** Configuration layers laid over each other, the first at the bottom. */
  function Layered(layers: seq<Json>): Json
    requires layers != []
  {
    if |layers| == 1 then layers[0]
    else Overlaid(Layered(layers[..|layers| - 1]), layers[|layers| - 1])
  }

  /**
   In any stack of layers, a value that is no object is what the stack shows at its path, as long
   as no later layer binds the path or cuts it off.
   */
  lemma {:induction false} LastBindingWins(layers: seq<Json>, i: nat, path: seq<string>)
    requires i < |layers| && path != []
    requires forall j :: 0 <= j < |layers| ==> layers[j].Obj?
    requires At(layers[i], path).Some? && !At(layers[i], path).value.Obj?
    requires forall j :: i < j < |layers| ==> At(layers[j], path).None? && !Cut(layers[j], path)
    ensures Layered(layers).Obj? && At(Layered(layers), path) == At(layers[i], path)
    decreases |layers|
  {
    LayersAreObjects(layers);
    if |layers| > 1 {
      var below, top := layers[..|layers| - 1], layers[|layers| - 1];
      LayersAreObjects(below);
      MergeAtPath(Layered(below), top, path);
      if i < |below| {
        assert below[i] == layers[i];
        LastBindingWins(below, i, path);
      }
    }
  }

  lemma {:induction false} LayersAreObjects(layers: seq<Json>)
    requires layers != [] && forall j :: 0 <= j < |layers| ==> layers[j].Obj?
    ensures Layered(layers).Obj?
    decreases |layers|
  {
    if |layers| > 1 {
      LayersAreObjects(layers[..|layers| - 1]);
    }
  }

  const CODEX_CONFIG := "CODEX_CONFIG"
  const SANDBOX := "sandbox_workspace_write"
  const NETWORK := "network_access"

  /** The overlay that is forced on top of every layer. */
  const FORCED := Obj(map[SANDBOX := Obj(map[NETWORK := Bool(true)])])

  datatype Source = Persona | Generated | Parent

  datatype ConfigFault =
    | NotJson(source: Source)
    | NotAnObject(source: Source)
    | SandboxNotAnObject(found: Json)

  /** The values of the `CODEX_CONFIG` entries, in order. */
  function CodexEntries(env: seq<(string, string)>): seq<string> {
    if env == [] then []
    else (if env[0].0 == CODEX_CONFIG then [env[0].1] else []) + CodexEntries(env[1..])
  }

  lemma {:induction false} CodexEntriesAppend(env: seq<(string, string)>, last: (string, string))
    ensures CodexEntries(env + [last]) ==
      CodexEntries(env) + (if last.0 == CODEX_CONFIG then [last.1] else [])
  {
    if env != [] {
      assert (env + [last])[1..] == env[1..] + [last];
      CodexEntriesAppend(env[1..], last);
    }
  }

  /** Every raw layer, bottom first: the entries, then the value of the parent environment. */
  function RawLayers(env: seq<(string, string)>, parent: Option<string>): seq<string> {
    CodexEntries(env) + if parent.Some? then [parent.value] else []
  }

  function SourceOf(env: seq<(string, string)>, i: nat): Source {
    if i >= |CodexEntries(env)| then Parent else if i == 0 then Persona else Generated
  }

  predicate IsObjectText(parse: string -> Option<Json>, raw: string) {
    parse(raw).Some? && parse(raw).value.Obj?
  }

  function Parsed(parse: string -> Option<Json>, raw: seq<string>): (layers: seq<Json>)
    requires forall i :: 0 <= i < |raw| ==> IsObjectText(parse, raw[i])
    ensures |layers| == |raw| && forall i :: 0 <= i < |raw| ==> layers[i].Obj?
  {
    seq(|raw|, i requires 0 <= i < |raw| && IsObjectText(parse, raw[i]) => parse(raw[i]).value)
  }

  function Faulty(parse: string -> Option<Json>, raw: string, source: Source): ConfigFault {
    if parse(raw).None? then NotJson(source) else NotAnObject(source)
  }

  /** The first layer that is not an object, if there is one, and what it is reported as. */
  predicate FirstFault(
    parse: string -> Option<Json>, env: seq<(string, string)>, raw: seq<string>, i: nat, e: ConfigFault)
  {
    && i < |raw| && !IsObjectText(parse, raw[i])
    && (forall j :: 0 <= j < i ==> IsObjectText(parse, raw[j]))
    && e == Faulty(parse, raw[i], SourceOf(env, i))
  }

  method CollectEntries(env: seq<(string, string)>) returns (entries: seq<string>)
    ensures entries == CodexEntries(env)
  {
    entries := [];
    for i := 0 to |env|
      invariant entries == CodexEntries(env[..i])
    {
      assert env[..i + 1] == env[..i] + [env[i]];
      CodexEntriesAppend(env[..i], env[i]);
      if env[i].0 == CODEX_CONFIG {
        entries := entries + [env[i].1];
      }
    }
    assert env[..|env|] == env;
  }

  method ParseEntries(parse: string -> Option<Json>, ghost env: seq<(string, string)>, entries: seq<string>)
    returns (r: Result<seq<Json>, ConfigFault>)
    requires entries == CodexEntries(env)
    ensures r.Ok? ==> (forall i :: 0 <= i < |entries| ==> IsObjectText(parse, entries[i]))
                      && r.value == Parsed(parse, entries)
    ensures r.Err? ==> exists i: nat :: FirstFault(parse, env, entries, i, r.error)
  {
    var parsed: seq<Json> := [];
    for i := 0 to |entries|
      invariant |parsed| == i
      invariant forall j :: 0 <= j < i ==>
        IsObjectText(parse, entries[j]) && parsed[j] == parse(entries[j]).value
    {
      if IsObjectText(parse, entries[i]) {
        parsed := parsed + [parse(entries[i]).value];
      } else {
        var fault := Faulty(parse, entries[i], if i == 0 then Persona else Generated);
        assert FirstFault(parse, env, entries, i, fault);
        return Err(fault);
      }
    }
    return Ok(parsed);
  }

  method StackUp(parsed: seq<Json>) returns (base: Fields)
    requires parsed != [] && forall j :: 0 <= j < |parsed| ==> parsed[j].Obj?
    ensures Obj(base) == Layered(parsed)
  {
    base := parsed[0].fields;
    for i := 1 to |parsed|
      invariant Obj(base) == Layered(parsed[..i])
    {
      assert parsed[..i + 1][..i] == parsed[..i];
      base := DeepMerge(base, parsed[i].fields);
    }
    assert parsed[..|parsed|] == parsed;
  }

  // Where the values of a built configuration come from.

  /** `v` says nothing about `path`, neither there nor above it. */
  predicate Silent(v: Json, path: seq<string>) { At(v, path).None? && !Cut(v, path) }

  predicate Leaf(v: Json, path: seq<string>) { At(v, path).Some? && !At(v, path).value.Obj? }

  /** Every leaf of a stack is that of the last layer that says anything about its path. */
  lemma {:induction false} LeafHasItsLayer(layers: seq<Json>, path: seq<string>) returns (i: nat)
    requires layers != [] && path != [] && forall j :: 0 <= j < |layers| ==> layers[j].Obj?
    requires Leaf(Layered(layers), path)
    ensures i < |layers| && At(layers[i], path) == At(Layered(layers), path)
    ensures forall j :: i < j < |layers| ==> Silent(layers[j], path)
    decreases |layers|
  {
    i := |layers| - 1;
    if |layers| > 1 {
      var below, top := layers[..|layers| - 1], layers[|layers| - 1];
      LayersAreObjects(below);
      MergeAtPath(Layered(below), top, path);
      if At(top, path).None? {
        i := LeafHasItsLayer(below, path);
      } else if At(top, path).value.Obj? {
        TopObjectShows(Layered(below), top, path);
      }
    }
  }

  lemma TopObjectShows(base: Json, overlay: Json, path: seq<string>)
    requires base.Obj? && overlay.Obj? && path != []
    requires At(overlay, path).Some? && At(overlay, path).value.Obj?
    ensures At(Overlaid(base, overlay), path).Some? && At(Overlaid(base, overlay), path).value.Obj?
  {
    MergeAtPath(base, overlay, path);
  }

  /**
   The text at place `i`: the `CODEX_CONFIG` entries have the places they have in the environment,
   and behind them all comes the value of the parent.
   */
  function TextAt(env: seq<(string, string)>, parent: Option<string>, i: nat): Option<string> {
    if i < |env| then if env[i].0 == "CODEX_CONFIG" then Some(env[i].1) else None
    else if i == |env| then parent
    else None
  }

  lemma {:induction false} EntriesGrow(env: seq<(string, string)>, i: nat, j: nat)
    requires i <= j <= |env|
    ensures |CodexEntries(env[..i])| <= |CodexEntries(env[..j])|
    ensures i < j && env[i].0 == CODEX_CONFIG ==> |CodexEntries(env[..i])| < |CodexEntries(env[..j])|
    decreases j - i
  {
    if i < j {
      assert env[..j] == env[..j - 1] + [env[j - 1]];
      CodexEntriesAppend(env[..j - 1], env[j - 1]);
      EntriesGrow(env, i, j - 1);
    }
  }

  /** The raw layer that the text at place `i` is. */
  lemma {:induction false} PlaceHasLayer(env: seq<(string, string)>, parent: Option<string>, i: nat)
    requires i <= |env| && TextAt(env, parent, i).Some?
    ensures var k := |CodexEntries(env[..i])|;
      k < |RawLayers(env, parent)| && RawLayers(env, parent)[k] == TextAt(env, parent, i).value
  {
    if i == |env| {
      assert env[..i] == env;
    } else {
      EntriesGrow(env, i + 1, |env|);
      assert env[..i + 1] == env[..i] + [env[i]] && env[..|env|] == env;
      CodexEntriesAppend(env[..i], env[i]);
      EntriesArePrefixed(env, i + 1);
    }
  }

  lemma {:induction false} EntriesArePrefixed(env: seq<(string, string)>, i: nat)
    requires i <= |env|
    ensures CodexEntries(env[..i]) <= CodexEntries(env)
    decreases |env| - i
  {
    if i == |env| {
      assert env[..i] == env;
    } else {
      assert env[..i + 1] == env[..i] + [env[i]];
      CodexEntriesAppend(env[..i], env[i]);
      EntriesArePrefixed(env, i + 1);
    }
  }

  /** The place of a raw layer. */
  lemma {:induction false} LayerHasPlace(env: seq<(string, string)>, parent: Option<string>, k: nat) returns (i: nat)
    requires k < |RawLayers(env, parent)|
    ensures i <= |env| && TextAt(env, parent, i) == Some(RawLayers(env, parent)[k])
    ensures |CodexEntries(env[..i])| == k
  {
    if k == |CodexEntries(env)| {
      i := |env|;
      assert env[..i] == env;
    } else {
      i := |env|;
      assert env[..i] == env;
      while |CodexEntries(env[..i])| > k
        invariant i <= |env| && |CodexEntries(env[..i])| >= k
        invariant i == |env| || |CodexEntries(env[..i + 1])| > k
        decreases i
      {
        assert env[..i] == env[..i - 1] + [env[i - 1]];
        CodexEntriesAppend(env[..i - 1], env[i - 1]);
        i := i - 1;
      }
      assert env[..i + 1] == env[..i] + [env[i]];
      CodexEntriesAppend(env[..i], env[i]);
      PlaceHasLayer(env, parent, i);
    }
  }

  predicate Reads(parse: string -> Option<Json>, env: seq<(string, string)>, parent: Option<string>, i: nat, v: Json) {
    TextAt(env, parent, i).Some? && parse(TextAt(env, parent, i).value) == Some(v)
  }

  /** At place `i` the text reads as `v`, and no later text says anything about `path`. */
  predicate LastOn(
    parse: string -> Option<Json>, env: seq<(string, string)>, parent: Option<string>,
    path: seq<string>, i: nat, v: Json)
  {
    && i <= |env| && Reads(parse, env, parent, i, v)
    && forall j :: i < j <= |env| && TextAt(env, parent, j).Some? ==>
         && parse(TextAt(env, parent, j).value).Some?
         && Silent(parse(TextAt(env, parent, j).value).value, path)
  }

  /** `path` neither leads to the forced setting nor through it. */
  predicate Aside(path: seq<string>) {
    && path != [] && !(path <= ["sandbox_workspace_write", "network_access"])
    && !(["sandbox_workspace_write", "network_access"] <= path)
  }

  /**
   What holds of a built configuration. A leaf that no later text overrides is in it: the parent's
   always, an entry's before those of earlier entries. It has no other leaf, except that network
   access is granted.
   */
  ghost predicate IsBuiltFrom(
    parse: string -> Option<Json>, env: seq<(string, string)>, parent: Option<string>, config: Json)
  {
    && At(config, ["sandbox_workspace_write", "network_access"]) == Some(Bool(true))
    && (forall path, i, v :: Aside(path) && LastOn(parse, env, parent, path, i, v) && Leaf(v, path) ==>
          At(config, path) == At(v, path))
    && forall path :: Aside(path) && Leaf(config, path) ==>
         exists i, v :: LastOn(parse, env, parent, path, i, v) && At(v, path) == At(config, path)
  }

  lemma StackShowsLast(
      parse: string -> Option<Json>, env: seq<(string, string)>, parent: Option<string>,
      path: seq<string>, i: nat, v: Json)
    requires path != [] && RawLayers(env, parent) != []
    requires forall k :: 0 <= k < |RawLayers(env, parent)| ==> IsObjectText(parse, RawLayers(env, parent)[k])
    requires LastOn(parse, env, parent, path, i, v) && Leaf(v, path)
    ensures At(Layered(Parsed(parse, RawLayers(env, parent))), path) == At(v, path)
  {
    var raw := RawLayers(env, parent);
    var layers, k := Parsed(parse, raw), |CodexEntries(env[..i])|;
    PlaceHasLayer(env, parent, i);
    forall l | k < l < |layers|
      ensures Silent(layers[l], path)
    {
      var j := LayerHasPlace(env, parent, l);
      if j < i {
        EntriesGrow(env, j, i);
      }
      assert layers[l] == parse(raw[l]).value;
    }
    LastBindingWins(layers, k, path);
  }

  lemma StackLeafHasText(
      parse: string -> Option<Json>, env: seq<(string, string)>, parent: Option<string>, path: seq<string>)
      returns (i: nat, v: Json)
    requires path != [] && RawLayers(env, parent) != []
    requires forall k :: 0 <= k < |RawLayers(env, parent)| ==> IsObjectText(parse, RawLayers(env, parent)[k])
    requires Leaf(Layered(Parsed(parse, RawLayers(env, parent))), path)
    ensures LastOn(parse, env, parent, path, i, v)
    ensures At(v, path) == At(Layered(Parsed(parse, RawLayers(env, parent))), path)
  {
    var raw := RawLayers(env, parent);
    var layers := Parsed(parse, raw);
    var k := LeafHasItsLayer(layers, path);
    i := LayerHasPlace(env, parent, k);
    v := layers[k];
    forall j | i < j <= |env| && TextAt(env, parent, j).Some?
      ensures parse(TextAt(env, parent, j).value).Some?
      ensures Silent(parse(TextAt(env, parent, j).value).value, path)
    {
      PlaceHasLayer(env, parent, j);
      EntriesGrow(env, i, j);
      assert Silent(layers[|CodexEntries(env[..j])|], path);
    }
  }

  lemma BuiltFromTexts(parse: string -> Option<Json>, env: seq<(string, string)>, parent: Option<string>)
    requires RawLayers(env, parent) != []
    requires forall k :: 0 <= k < |RawLayers(env, parent)| ==> IsObjectText(parse, RawLayers(env, parent)[k])
    requires var stack := Layered(Parsed(parse, RawLayers(env, parent)));
      stack.Get(SANDBOX).Some? ==> stack.Get(SANDBOX).value.Obj?
    ensures IsBuiltFrom(parse, env, parent, Overlaid(Layered(Parsed(parse, RawLayers(env, parent))), FORCED))
  {
    hide Layered, Parsed, Overlaid, LastOn, RawLayers, Cut, At;
    var stack := Layered(Parsed(parse, RawLayers(env, parent)));
    LayersAreObjects(Parsed(parse, RawLayers(env, parent)));
    ForcedChangesOnePath(stack, []);
    forall path, i, v | Aside(path) && LastOn(parse, env, parent, path, i, v) && Leaf(v, path)
      ensures At(Overlaid(stack, FORCED), path) == At(v, path)
    {
      ForcedChangesOnePath(stack, path);
      StackShowsLast(parse, env, parent, path, i, v);
    }
    forall path | Aside(path) && Leaf(Overlaid(stack, FORCED), path)
      ensures exists i, v :: LastOn(parse, env, parent, path, i, v) && At(v, path) == At(Overlaid(stack, FORCED), path)
    {
      ForcedChangesOnePath(stack, path);
      var i, v := StackLeafHasText(parse, env, parent, path);
    }
  }

  predicate IsObjectAt(parse: string -> Option<Json>, env: seq<(string, string)>, parent: Option<string>, i: nat) {
    TextAt(env, parent, i).Some? ==> IsObjectText(parse, TextAt(env, parent, i).value)
  }

  /** The text at place `i` is the first that is not an object, and `e` says whose it is. */
  predicate IsFaultAt(
    parse: string -> Option<Json>, env: seq<(string, string)>, parent: Option<string>, i: nat, e: ConfigFault)
  {
    && i <= |env| && !IsObjectAt(parse, env, parent, i)
    && (forall j :: 0 <= j < i ==> IsObjectAt(parse, env, parent, j))
    && var source :=
         if i == |env| then Parent
         else if forall j :: 0 <= j < i ==> env[j].0 != "CODEX_CONFIG" then Persona
         else Generated;
       e == if parse(TextAt(env, parent, i).value).None? then NotJson(source) else NotAnObject(source)
  }

  /** Why a configuration is not built: a text that is no object, or a sandbox entry that is none. */
  ghost predicate IsRefusal(
    parse: string -> Option<Json>, env: seq<(string, string)>, parent: Option<string>, e: ConfigFault)
  {
    match e
    case SandboxNotAnObject(found) =>
      exists i, v ::
        && LastOn(parse, env, parent, ["sandbox_workspace_write"], i, v)
        && At(v, ["sandbox_workspace_write"]) == Some(found) && !found.Obj?
    case _ => exists i :: IsFaultAt(parse, env, parent, i, e)
  }

  lemma FaultHasPlace(
      parse: string -> Option<Json>, env: seq<(string, string)>, parent: Option<string>, k: nat, e: ConfigFault)
      returns (i: nat)
    requires FirstFault(parse, env, RawLayers(env, parent), k, e)
    ensures IsFaultAt(parse, env, parent, i, e)
  {
    i := LayerHasPlace(env, parent, k);
    forall j | 0 <= j < i && TextAt(env, parent, j).Some?
      ensures IsObjectText(parse, TextAt(env, parent, j).value)
    {
      PlaceHasLayer(env, parent, j);
      EntriesGrow(env, j, i);
    }
    EntriesArePrefixed(env, i);
    if i < |env| {
      PlaceHasLayer(env, None, i);
      NoEntriesYet(env, i);
    } else {
      assert env[..i] == env;
    }
  }

  lemma {:induction false} NoEntriesYet(env: seq<(string, string)>, i: nat)
    requires i <= |env|
    ensures CodexEntries(env[..i]) == [] <==> forall j :: 0 <= j < i ==> env[j].0 != "CODEX_CONFIG"
  {
    if i > 0 {
      assert env[..i] == env[..i - 1] + [env[i - 1]];
      CodexEntriesAppend(env[..i - 1], env[i - 1]);
      NoEntriesYet(env, i - 1);
    }
  }

  lemma RefusedAt(
      parse: string -> Option<Json>, env: seq<(string, string)>, parent: Option<string>, k: nat, e: ConfigFault)
    requires FirstFault(parse, env, RawLayers(env, parent), k, e)
    ensures IsRefusal(parse, env, parent, e)
  {
    var i := FaultHasPlace(parse, env, parent, k, e);
    hide IsFaultAt;
  }

  lemma SandboxHasText(parse: string -> Option<Json>, env: seq<(string, string)>, parent: Option<string>, found: Json)
    requires RawLayers(env, parent) != []
    requires forall k :: 0 <= k < |RawLayers(env, parent)| ==> IsObjectText(parse, RawLayers(env, parent)[k])
    requires Layered(Parsed(parse, RawLayers(env, parent))).Get(SANDBOX) == Some(found) && !found.Obj?
    ensures IsRefusal(parse, env, parent, SandboxNotAnObject(found))
  {
    var stack := Layered(Parsed(parse, RawLayers(env, parent)));
    hide Layered, Parsed, RawLayers, LastOn;
    assert At(stack, [SANDBOX]) == Some(found) by {
      assert [SANDBOX][1..] == [];
      assert At(found, []) == Some(found);
    }
    var i, v := StackLeafHasText(parse, env, parent, [SANDBOX]);
  }

  /**
   `build_codex_config_env`, for any JSON parser. Without a generated entry there is nothing to
   build. The first layer that is not an object decides the error. Otherwise the result is the
   stack of layers with the forced overlay on top, refused when that would replace a sandbox entry
   that is not an object. What this means, text by text, is what the last three clauses say.
   */
  method BuildCodexConfigEnv(
    env: seq<(string, string)>, parent: Option<string>, hasGenerated: bool,
    parse: string -> Option<Json>)
    returns (r: Result<Option<Json>, ConfigFault>)
    ensures !hasGenerated || CodexEntries(env) == [] ==> r == Ok(None)
    ensures hasGenerated && CodexEntries(env) != [] ==>
      var raw := RawLayers(env, parent);
      if forall i :: 0 <= i < |raw| ==> IsObjectText(parse, raw[i]) then
        var stack := Layered(Parsed(parse, raw));
        match stack.Get(SANDBOX)
        case Some(v) => r == if v.Obj? then Ok(Some(Overlaid(stack, FORCED)))
                             else Err(SandboxNotAnObject(v))
        case None => r == Ok(Some(Overlaid(stack, FORCED)))
      else
        r.Err? && exists i: nat :: FirstFault(parse, env, raw, i, r.error)
    ensures r == Ok(None) <==> !hasGenerated || forall i :: 0 <= i < |env| ==> env[i].0 != "CODEX_CONFIG"
    ensures r.Ok? && r.value.Some? ==> IsBuiltFrom(parse, env, parent, r.value.value)
    ensures r.Err? ==> IsRefusal(parse, env, parent, r.error)
  {
    hide IsBuiltFrom, IsRefusal;
    assert env[..|env|] == env;
    NoEntriesYet(env, |env|);
    if !hasGenerated {
      return Ok(None);
    }
    var entries := CollectEntries(env);
    if entries == [] {
      return Ok(None);
    }
    ghost var raw := RawLayers(env, parent);
    var parsed := ParseEntries(parse, env, entries);
    if parsed.Err? {
      ghost var i: nat :| FirstFault(parse, env, entries, i, parsed.error);
      assert raw[i] == entries[i] && FirstFault(parse, env, raw, i, parsed.error);
      RefusedAt(parse, env, parent, i, parsed.error);
      return Err(parsed.error);
    }
    var base := StackUp(parsed.value);
    if parent.Some? {
      assert raw[|entries|] == parent.value;
      if !IsObjectText(parse, parent.value) {
        var fault := Faulty(parse, parent.value, Parent);
        assert FirstFault(parse, env, raw, |entries|, fault);
        RefusedAt(parse, env, parent, |entries|, fault);
        return Err(fault);
      }
      var top := parse(parent.value).value;
      assert (parsed.value + [top])[..|entries|] == parsed.value;
      base := DeepMerge(base, top.fields);
      assert parsed.value + [top] == Parsed(parse, raw);
    } else {
      assert raw == entries;
    }
    assert forall i :: 0 <= i < |raw| ==> IsObjectText(parse, raw[i]);
    assert Obj(base) == Layered(Parsed(parse, raw));
    var sandbox := if SANDBOX in base then base[SANDBOX] else Obj(map[]);
    if !sandbox.Obj? {
      SandboxHasText(parse, env, parent, sandbox);
      return Err(SandboxNotAnObject(sandbox));
    }
    ForcedSetting(base, sandbox.fields);
    BuiltFromTexts(parse, env, parent);
    base := base[SANDBOX := Obj(sandbox.fields[NETWORK := Bool(true)])];
    return Ok(Some(Obj(base)));
  }

  /** Setting the one member in place is laying the forced overlay on top. */
  lemma ForcedSetting(stack: Fields, sandbox: Fields)
    requires SANDBOX in stack ==> stack[SANDBOX] == Obj(sandbox)
    requires SANDBOX !in stack ==> sandbox == map[]
    ensures Overlaid(Obj(stack), FORCED) == Obj(stack[SANDBOX := Obj(sandbox[NETWORK := Bool(true)])])
  {
    var inner := Obj(map[NETWORK := Bool(true)]);
    assert Overlaid(Obj(sandbox), inner).fields == sandbox[NETWORK := Bool(true)];
    assert Overlaid(Obj(stack), FORCED).fields == stack[SANDBOX := Obj(sandbox[NETWORK := Bool(true)])];
  }

  /** The forced overlay grants network access and leaves every path beside it alone. */
  lemma ForcedChangesOnePath(stack: Json, path: seq<string>)
    requires stack.Obj?
    requires stack.Get(SANDBOX).Some? ==> stack.Get(SANDBOX).value.Obj?
    ensures At(Overlaid(stack, FORCED), [SANDBOX, NETWORK]) == Some(Bool(true))
    ensures path != [] && !(path <= [SANDBOX, NETWORK]) && !([SANDBOX, NETWORK] <= path) ==>
      At(Overlaid(stack, FORCED), path) == At(stack, path)
  {
    var full := [SANDBOX, NETWORK];
    assert full[1..] == [NETWORK] && full[1..][1..] == [];
    assert FORCED.Get(SANDBOX) == Some(Obj(map[NETWORK := Bool(true)]));
    assert At(Obj(map[NETWORK := Bool(true)]), [NETWORK]) == At(Bool(true), [NETWORK][1..]);
    assert At(FORCED, full) == At(Obj(map[NETWORK := Bool(true)]), full[1..]);
    MergeAtPath(stack, FORCED, full);
    if path != [] && !(path <= full) && !(full <= path) {
      if path[0] == SANDBOX {
        assert path == [SANDBOX] + path[1..];
      }
      MergeAtPath(stack, FORCED, path);
    }
  }
}
