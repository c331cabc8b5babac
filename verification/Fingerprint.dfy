/**
 Content fingerprints (build_fingerprint.rs): the byte streams that are hashed. SHA-256
 itself is not modelled; a hasher is the stream it has been fed.
 */
module Fingerprint {
  import opened Octets
  import opened Orders
  import Text

  const U64: int := 0x1_0000_0000_0000_0000

  // The first `k` little-endian digits of a number in base 256.
  function LittleEndian(n: nat, k: nat): (digits: Bytes)
    ensures |digits| == k
  {
    if k == 0 then [] else [n % 256] + LittleEndian(n / 256, k - 1)
  }

  function Power256(k: nat): nat {
    if k == 0 then 1 else 256 * Power256(k - 1)
  }

  lemma DivideBound(n: nat, p: nat)
    requires n < 256 * p
    ensures n / 256 < p
  {}

  lemma {:induction false} LittleEndianInjective(a: nat, b: nat, k: nat)
    requires a < Power256(k) && b < Power256(k)
    requires LittleEndian(a, k) == LittleEndian(b, k)
    ensures a == b
  {
    if k > 0 {
      var da, db := LittleEndian(a, k), LittleEndian(b, k);
      assert da[0] == db[0] && da[1..] == db[1..];
      DivideBound(a, Power256(k - 1));
      DivideBound(b, Power256(k - 1));
      LittleEndianInjective(a / 256, b / 256, k - 1);
    }
  }

  // A length prefix of eight bytes, then the bytes.
  function Frame(bytes: Bytes): Bytes {
    LittleEndian(|bytes|, 8) + bytes
  }

  function Stream(frames: seq<Bytes>): Bytes {
    if frames == [] then [] else Frame(frames[0]) + Stream(frames[1..])
  }

  lemma FrameIsPrefixFree(a: Bytes, b: Bytes, restA: Bytes, restB: Bytes)
    requires |a| < U64 && |b| < U64
    requires Frame(a) + restA == Frame(b) + restB
    ensures a == b && restA == restB
  {
    var sa, sb := Frame(a) + restA, Frame(b) + restB;
    assert sa[..8] == LittleEndian(|a|, 8) && sb[..8] == LittleEndian(|b|, 8);
    Power256Of8();
    LittleEndianInjective(|a|, |b|, 8);
    assert sa[8..8 + |a|] == a && sb[8..8 + |b|] == b;
    assert sa[8 + |a|..] == restA && sb[8 + |b|..] == restB;
  }

  lemma Power256Of8()
    ensures Power256(8) == U64
  {
    assert Power256(4) == 0x1_0000_0000;
    assert Power256(6) == 256 * (256 * Power256(4));
  }

  // The lowest digit, and the number without it.
  lemma NextDigit(n: nat, k: nat, p: nat)
    requires k > 0 && n < 256 * p
    ensures var digits := LittleEndian(n, k);
            digits[0] == n % 256 && digits[1..] == LittleEndian(n / 256, k - 1) && n == digits[0] + 256 * (n / 256) && n / 256 < p
  {}

  function Positional(d: seq<int>): int
    requires |d| == 8
  {
    d[0] + 0x100 * d[1] + 0x1_0000 * d[2] + 0x100_0000 * d[3] + 0x1_0000_0000 * d[4]
    + 0x100_0000_0000 * d[5] + 0x1_0000_0000_0000 * d[6] + 0x100_0000_0000_0000 * d[7]
  }

  // The prefix is the length, least significant byte first, and the bytes follow it.
  lemma FrameExactly(bytes: Bytes)
    requires |bytes| < 0x1_0000_0000_0000_0000
    ensures var f := Frame(bytes);
            && |f| == 8 + |bytes| && f[8..] == bytes
            && |bytes| == Positional(f[..8])
  {
    var n1 := |bytes| / 256;
    var n2 := n1 / 256;
    var n3 := n2 / 256;
    var n4 := n3 / 256;
    var n5 := n4 / 256;
    var n6 := n5 / 256;
    NextDigit(|bytes|, 8, 0x100_0000_0000_0000);
    NextDigit(n1, 7, 0x1_0000_0000_0000);
    NextDigit(n2, 6, 0x100_0000_0000);
    NextDigit(n3, 5, 0x1_0000_0000);
    NextDigit(n4, 4, 0x100_0000);
    NextDigit(n5, 3, 0x1_0000);
    NextDigit(n6, 2, 0x100);
    NextDigit(n6 / 256, 1, 1);
    var d := LittleEndian(|bytes|, 8);
    var f := Frame(bytes);
    assert f[..8] == d;
    assert d[1] == d[1..][0] && d[2] == d[1..][1..][0] && d[3] == d[1..][1..][1..][0];
    var e := d[1..][1..][1..][1..];
    assert e == d[4..] && e == LittleEndian(n4, 4);
    assert d[4] == e[0] && d[5] == e[1..][0] && d[6] == e[1..][1..][0] && d[7] == e[1..][1..][1..][0];
  }

  ghost predicate Short(frames: seq<Bytes>) {
    forall frame :: frame in frames ==> |frame| < U64
  }

  lemma StreamNotEmpty(frames: seq<Bytes>)
    requires frames != []
    ensures Stream(frames) != []
  {
    assert |Stream(frames)| >= 8;
  }

  // The stream can be decoded in one way only.
  lemma {:induction false} StreamInjective(a: seq<Bytes>, b: seq<Bytes>)
    requires Short(a) && Short(b) && Stream(a) == Stream(b)
    ensures a == b
    decreases |a|
  {
    if a != [] { StreamNotEmpty(a); }
    if b != [] { StreamNotEmpty(b); }
    if a != [] {
      FrameIsPrefixFree(a[0], b[0], Stream(a[1..]), Stream(b[1..]));
      StreamInjective(a[1..], b[1..]);
      SameHeadAndTail(a, b);
    }
  }

  lemma {:induction false} StreamConcat(a: seq<Bytes>, b: seq<Bytes>)
    ensures Stream(a + b) == Stream(a) + Stream(b)
  {
    if a == [] {
      assert a + b == b;
    } else {
      assert (a + b)[1..] == a[1..] + b;
      StreamConcat(a[1..], b);
    }
  }

  lemma StreamOne(frame: Bytes)
    ensures Stream([frame]) == Frame(frame)
  {
    assert [frame][1..] == [];
  }

  class Hasher {
    var fed: Bytes

    constructor ()
      ensures fed == []
    {
      fed := [];
    }

    method Update(bytes: Bytes)
      modifies this
      ensures fed == old(fed) + bytes
    {
      fed := fed + bytes;
    }
  }

  method Framed(hash: Hasher, bytes: Bytes)
    modifies hash
    ensures hash.fed == old(hash.fed) + Frame(bytes)
  {
    hash.Update(LittleEndian(|bytes|, 8));
    hash.Update(bytes);
  }

  method CombineBuildFingerprint(source: Bytes, rustflags: Bytes, profile: Bytes) returns (hash: Hasher)
    ensures fresh(hash) && hash.fed == Stream([source, rustflags, profile])
  {
    hash := new Hasher();
    Framed(hash, source);
    Framed(hash, rustflags);
    Framed(hash, profile);
    StreamConcat([source], [rustflags]);
    StreamConcat([source] + [rustflags], [profile]);
    StreamOne(source);
    StreamOne(rustflags);
    StreamOne(profile);
    assert [source] + [rustflags] + [profile] == [source, rustflags, profile];
  }

  // ---------- The whole build ----------

  // A setting: its key and its value.
  type Setting = seq<Bytes>

  function CompareBytes(a: Bytes, b: Bytes): int {
    Lex((x: Byte, y: Byte) => CompareInts(x, y), a, b)
  }

  function CompareSettings(a: Setting, b: Setting): int {
    Lex(CompareBytes, a, b)
  }

  lemma BytesAreOrdered()
    ensures Ordering(CompareBytes)
  {
    LexOrdering((x: Byte, y: Byte) => CompareInts(x, y), CompareBytes);
  }

  // Bytes are compared at the first difference, and a proper prefix comes first.
  lemma BytesExactly(a: Bytes, b: Bytes)
    ensures CompareBytes(a, b) < 0 <==>
              a < b || exists i :: 0 <= i < |a| && i < |b| && a[..i] == b[..i] && a[i] < b[i]
  {
    var cmp := (x: Byte, y: Byte) => CompareInts(x, y);
    LexExactly(cmp, a, b);
    assert forall i :: Undercuts(cmp, a, b, i) <==> 0 <= i < |a| && i < |b| && a[..i] == b[..i] && a[i] < b[i];
  }

  // Settings by key, and with the same key by value.
  lemma SettingsExactly(a: Setting, b: Setting)
    requires |a| == 2 && |b| == 2
    ensures CompareSettings(a, b) < 0 <==> CompareBytes(a[0], b[0]) < 0 || (a[0] == b[0] && CompareBytes(a[1], b[1]) < 0)
  {
    BytesAreOrdered();
    assert a[1..][0] == a[1] && b[1..][0] == b[1] && a[1..][1..] == [] && b[1..][1..] == [];
    assert CompareBytes(a[0], b[0]) == 0 <==> a[0] == b[0];
    assert Lex(CompareBytes, a[1..], b[1..]) < 0 <==> CompareBytes(a[1], b[1]) < 0;
  }

  // The settings are laid out in rising order, whatever order the environment has.
  lemma SettingsInOrder(combined: Bytes, settings: seq<Setting>, rustc: Bytes) returns (sorted: seq<Setting>)
    ensures BuildFrames(combined, settings, rustc) == [combined] + Text.Flat(Pair, sorted) + [rustc]
    ensures multiset(sorted) == multiset(settings)
    ensures forall i, j :: 0 <= i < j < |sorted| ==> CompareSettings(sorted[i], sorted[j]) <= 0
  {
    sorted := Sort(CompareSettings, settings);
    SettingsAreOrdered();
    SortSorts(CompareSettings, settings);
    forall i, j | 0 <= i < j < |sorted| ensures CompareSettings(sorted[i], sorted[j]) <= 0 {
      SortedPairs(CompareSettings, sorted, i, j);
    }
  }

  lemma SettingsAreOrdered()
    ensures Ordering(CompareSettings)
  {
    BytesAreOrdered();
    LexOrdering(CompareBytes, CompareSettings);
  }

  lemma SameElements<T>(a: seq<T>, b: seq<T>)
    requires multiset(a) == multiset(b)
    ensures forall x :: x in a <==> x in b
  {
    assert forall x :: x in a <==> x in multiset(a);
    assert forall x :: x in b <==> x in multiset(b);
  }

  // The frames of a build: the combined source fingerprint, the settings sorted and laid
  // out as key and value, the compiler's version output.
  function BuildFrames(combined: Bytes, settings: seq<Setting>, rustc: Bytes): seq<Bytes> {
    [combined] + Text.Flat(Pair, Sort(CompareSettings, settings)) + [rustc]
  }

  // A key and its value.
  function Pair(setting: Setting): seq<Bytes> {
    setting
  }

  lemma {:induction false} FlatInjective(a: seq<Setting>, b: seq<Setting>)
    requires forall s :: s in a || s in b ==> |s| == 2
    requires Text.Flat(Pair, a) == Text.Flat(Pair, b)
    ensures a == b
    decreases |a|
  {
    if a != [] { assert |a[0]| == 2; }
    if b != [] { assert |b[0]| == 2; }
    if a != [] {
      assert Text.Flat(Pair, a)[..2] == a[0] && Text.Flat(Pair, b)[..2] == b[0];
      assert Text.Flat(Pair, a)[2..] == Text.Flat(Pair, a[1..]) && Text.Flat(Pair, b)[2..] == Text.Flat(Pair, b[1..]);
      FlatInjective(a[1..], b[1..]);
      SameHeadAndTail(a, b);
    }
  }

  // Equal build streams mean the same source fingerprint, the same settings in whatever
  // order the environment lists them, and the same compiler.
  lemma BuildStreamInjective(
    combined: Bytes, settings: seq<Setting>, rustc: Bytes, combined': Bytes, settings': seq<Setting>, rustc': Bytes)
    requires forall s :: s in settings || s in settings' ==> |s| == 2
    requires Short(BuildFrames(combined, settings, rustc)) && Short(BuildFrames(combined', settings', rustc'))
    ensures Stream(BuildFrames(combined, settings, rustc)) == Stream(BuildFrames(combined', settings', rustc'))
            <==> combined == combined' && multiset(settings) == multiset(settings') && rustc == rustc'
  {
    var sorted, sorted' := Sort(CompareSettings, settings), Sort(CompareSettings, settings');
    SettingsAreOrdered();
    SortIgnoresOrder(CompareSettings, settings, settings');
    SameElements(settings, sorted);
    SameElements(settings', sorted');
    var f, g := BuildFrames(combined, settings, rustc), BuildFrames(combined', settings', rustc');
    if Stream(f) == Stream(g) {
      StreamInjective(f, g);
      assert f[0] == combined && g[0] == combined' && f[|f| - 1] == rustc && g[|g| - 1] == rustc';
      assert f[1..|f| - 1] == Text.Flat(Pair, sorted) && g[1..|g| - 1] == Text.Flat(Pair, sorted');
      FlatInjective(sorted, sorted');
    }
  }
}
