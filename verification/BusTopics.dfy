/**
 Names on the Redis bus: community ids are UUIDs in their text form, topics are built from them, and
 a payload starts with the id of the community it belongs to.
 */
module BusTopics {
  const UUIDS: nat := 0x1_0000_0000_0000_0000_0000_0000_0000_0000

  function HexDigit(n: nat): char
    requires n < 16
  {
    "0123456789abcdef"[n]
  }

  function Hex(n: nat, width: nat): (h: string)
    ensures |h| == width && '|' !in h
  {
    if width == 0 then "" else Hex(n / 16, width - 1) + [HexDigit(n % 16)]
  }

  function Pow16(width: nat): nat {
    if width == 0 then 1 else 16 * Pow16(width - 1)
  }

  /** `str(UUID(int=n))` */
  function UuidText(n: nat): (s: string)
    ensures |s| == 36 && '|' !in s
  {
    var h := Hex(n, 32);
    h[..8] + "-" + h[8..12] + "-" + h[12..16] + "-" + h[16..20] + "-" + h[20..]
  }

  function CommunityId(index: nat): string { UuidText(index + 1) }

  const OLD_GLOBAL_CHANNEL := "buzz:global"

  function ScopedChannel(community: string): string { "buzz:" + community + ":global" }

  function BeforeBar(payload: string): string {
    if payload == [] || payload[0] == '|' then [] else [payload[0]] + BeforeBar(payload[1..])
  }

  lemma HexDigitIdentifies(n: nat, m: nat)
    requires n < 16 && m < 16 && HexDigit(n) == HexDigit(m)
    ensures n == m
  {
  }

  lemma {:induction false} HexIdentifies(n: nat, m: nat, width: nat)
    requires n < Pow16(width) && m < Pow16(width) && Hex(n, width) == Hex(m, width)
    ensures n == m
  {
    hide HexDigit;
    if width > 0 {
      var h, g := Hex(n, width), Hex(m, width);
      assert h[..width - 1] == Hex(n / 16, width - 1) && g[..width - 1] == Hex(m / 16, width - 1);
      assert h[width - 1] == HexDigit(n % 16) && g[width - 1] == HexDigit(m % 16);
      HexDigitIdentifies(n % 16, m % 16);
      HexIdentifies(n / 16, m / 16, width - 1);
    }
  }

  lemma AllUuids()
    ensures Pow16(32) == UUIDS
  {
    assert Pow16(8) == 0x1_0000_0000;
    assert Pow16(16) == 0x1_0000_0000_0000_0000;
    assert Pow16(24) == 0x1_0000_0000_0000_0000_0000_0000;
  }

  function WithoutDashes(s: string): string
    requires |s| == 36
  {
    s[..8] + s[9..13] + s[14..18] + s[19..23] + s[24..]
  }

  lemma Undashed(n: nat)
    ensures WithoutDashes(UuidText(n)) == Hex(n, 32)
  {
    hide Hex;
    var s, h := UuidText(n), Hex(n, 32);
    assert s[..8] == h[..8];
    assert s[9..13] == h[8..12];
    assert s[14..18] == h[12..16];
    assert s[19..23] == h[16..20];
    assert s[24..] == h[20..];
    assert h == h[..8] + h[8..12] + h[12..16] + h[16..20] + h[20..];
  }

  lemma UuidTextIdentifies(n: nat, m: nat)
    requires n < UUIDS && m < UUIDS && UuidText(n) == UuidText(m)
    ensures n == m
  {
    Undashed(n);
    Undashed(m);
    AllUuids();
    HexIdentifies(n, m, 32);
  }

  /** Communities have their own topics: no two share one, and none is the old global one. */
  lemma TopicsAreDistinct(i: nat, j: nat)
    requires i + 1 < UUIDS && j + 1 < UUIDS
    ensures ScopedChannel(CommunityId(i)) == ScopedChannel(CommunityId(j)) <==> i == j
    ensures CommunityId(i) == CommunityId(j) <==> i == j
    ensures ScopedChannel(CommunityId(i)) != OLD_GLOBAL_CHANNEL
  {
    hide UuidText;
    assert CommunityId(i) == ScopedChannel(CommunityId(i))[5..41];
    assert CommunityId(j) == ScopedChannel(CommunityId(j))[5..41];
    if CommunityId(i) == CommunityId(j) {
      UuidTextIdentifies(i + 1, j + 1);
    }
  }

  lemma {:induction false} PayloadNamesItsCommunity(community: string, event: string)
    requires '|' !in community
    ensures BeforeBar(community + "|" + event) == community
  {
    if community == "" {
      assert ("" + "|" + event)[0] == '|';
    } else {
      assert (community + "|" + event)[1..] == community[1..] + "|" + event;
      PayloadNamesItsCommunity(community[1..], event);
    }
  }

  /** The number that a string of hex digits is the notation of. */
  function NumberOf(h: string): nat
    requires forall i :: 0 <= i < |h| ==> h[i] in "0123456789abcdef"
  {
    if h == [] then 0
    else
      var last := h[|h| - 1];
      16 * NumberOf(h[..|h| - 1]) + if last <= '9' then last as int - '0' as int else last as int - 'a' as int + 10
  }

  lemma DigitIsNotation(n: nat)
    requires n < 16
    ensures HexDigit(n) in "0123456789abcdef"
    ensures n == if HexDigit(n) <= '9' then HexDigit(n) as int - '0' as int else HexDigit(n) as int - 'a' as int + 10
  {
    assert HexDigit(n) == "0123456789abcdef"[n];
  }

  lemma {:induction false} HexIsNotation(n: nat, width: nat)
    requires n < Pow16(width)
    ensures forall i :: 0 <= i < width ==> Hex(n, width)[i] in "0123456789abcdef"
    ensures NumberOf(Hex(n, width)) == n
  {
    hide HexDigit;
    if width > 0 {
      HexIsNotation(n / 16, width - 1);
      DigitIsNotation(n % 16);
      assert Hex(n, width)[..width - 1] == Hex(n / 16, width - 1);
    }
  }

  /** Names are what the relay expects: the 32 hex digits of the number, dashed, between `buzz:` and `:global`. */
  lemma TopicIsSpelled(index: nat)
    requires index + 1 < UUIDS
    ensures var id, topic := CommunityId(index), ScopedChannel(CommunityId(index));
      && topic[..5] == "buzz:" && topic[5..41] == id && topic[41..] == ":global"
      && id[8] == id[13] == id[18] == id[23] == '-'
      && (forall i :: 0 <= i < 32 ==> WithoutDashes(id)[i] in "0123456789abcdef")
      && NumberOf(WithoutDashes(id)) == index + 1
    ensures OLD_GLOBAL_CHANNEL == "buzz:global"
  {
    hide Hex, Pow16, WithoutDashes, NumberOf;
    AllUuids();
    HexIsNotation(index + 1, 32);
    Undashed(index + 1);
    DashesStand(index + 1);
    var id := CommunityId(index);
    hide UuidText, CommunityId;
    assert ScopedChannel(id) == "buzz:" + id + ":global";
  }

  lemma DashesStand(n: nat)
    ensures var s := UuidText(n); s[8] == s[13] == s[18] == s[23] == '-'
  {
    hide Hex;
  }
}
