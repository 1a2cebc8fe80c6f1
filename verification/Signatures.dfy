/** Masked byte signatures: what a match is, the reference list of all matches, and the runtime resolver. */
module Signatures {

  type Byte = b: int | 0 <= b < 256

  const ADDRESS_SPACE: int := 0x1_0000_0000_0000_0000

  // A masked pattern; `mask` true means the byte is compared.
  datatype Pattern = Pattern(bytes: seq<Byte>, mask: seq<bool>) {
    predicate Valid() { |bytes| == |mask| }
  }

  predicate MatchesAt(text: seq<Byte>, p: Pattern, at: int)
    requires p.Valid()
  {
    && 0 <= at <= |text| - |p.bytes|
    && forall j :: 0 <= j < |p.bytes| && p.mask[j] ==> text[at + j] == p.bytes[j]
  }

  // The matches at positions below n, ascending: the naive scan.
  function MatchesBelow(text: seq<Byte>, p: Pattern, n: nat): (r: seq<nat>)
    requires p.Valid()
    ensures forall k :: 0 <= k < |r| ==> r[k] < n && MatchesAt(text, p, r[k])
  {
    if n == 0 then []
    else MatchesBelow(text, p, n - 1) + (if MatchesAt(text, p, n - 1) then [n - 1] else [])
  }

  function AllMatches(text: seq<Byte>, p: Pattern): seq<nat>
    requires p.Valid()
  {
    MatchesBelow(text, p, |text| + 1)
  }

  ghost predicate UniqueAt(text: seq<Byte>, p: Pattern, at: int)
    requires p.Valid()
  {
    MatchesAt(text, p, at) && forall b :: MatchesAt(text, p, b) ==> b == at
  }

  // Positions without a match can be skipped.
  lemma {:induction false} SkipNonMatches(text: seq<Byte>, p: Pattern, n: nat, m: nat)
    requires p.Valid() && n <= m && forall at :: n <= at < m ==> !MatchesAt(text, p, at)
    ensures MatchesBelow(text, p, m) == MatchesBelow(text, p, n)
  {
    if n < m {
      SkipNonMatches(text, p, n, m - 1);
    }
  }

  lemma {:induction false} MatchesBelowIsPrefix(text: seq<Byte>, p: Pattern, n: nat, m: nat)
    requires p.Valid() && n <= m
    ensures MatchesBelow(text, p, n) <= MatchesBelow(text, p, m)
  {
    if n < m {
      MatchesBelowIsPrefix(text, p, n, m - 1);
    }
  }

  // Nothing matches past the last start position, so any limit beyond it gives the whole list.
  lemma AllMatchesBelow(text: seq<Byte>, p: Pattern, n: nat)
    requires p.Valid() && |text| - |p.bytes| < n
    ensures MatchesBelow(text, p, n) == AllMatches(text, p)
  {
    if n <= |text| + 1 {
      SkipNonMatches(text, p, n, |text| + 1);
    } else {
      SkipNonMatches(text, p, |text| + 1, n);
    }
  }

  lemma {:induction false} MatchIsListed(text: seq<Byte>, p: Pattern, n: nat, at: nat)
    requires p.Valid() && at < n && MatchesAt(text, p, at)
    ensures at in MatchesBelow(text, p, n)
  {
    if at < n - 1 {
      MatchIsListed(text, p, n - 1, at);
    }
  }

  // For a pattern cut from the text at `at`, one listed match means a unique match there.
  lemma UniqueIffOneListed(text: seq<Byte>, p: Pattern, at: nat)
    requires p.Valid() && MatchesAt(text, p, at)
    ensures |AllMatches(text, p)| == 1 <==> UniqueAt(text, p, at)
    ensures UniqueAt(text, p, at) ==> AllMatches(text, p) == [at]
  {
    if UniqueAt(text, p, at) {
      UniqueIsListedAlone(text, p, at);
    } else {
      var b :| MatchesAt(text, p, b) && b != at;
      MatchIsListed(text, p, |text| + 1, at);
      MatchIsListed(text, p, |text| + 1, b);
    }
  }

  lemma UniqueIsListedAlone(text: seq<Byte>, p: Pattern, at: nat)
    requires p.Valid() && UniqueAt(text, p, at)
    ensures AllMatches(text, p) == [at]
  {
    SkipNonMatches(text, p, 0, at);
    assert MatchesBelow(text, p, at + 1) == MatchesBelow(text, p, at) + [at];
    SkipNonMatches(text, p, at + 1, |text| + 1);
  }

  // ---- The runtime scanner ----

  datatype Match = Match(found: bool, unique: bool, offset: nat)

  // What find_masked has to report, read off the reference list.
  function MatchOf(region: seq<Byte>, p: Pattern): Match
    requires p.Valid()
  {
    var all := AllMatches(region, p);
    if |p.bytes| == 0 || all == [] then Match(false, false, 0) else Match(true, |all| == 1, all[0])
  }

  method MatchesHere(region: seq<Byte>, p: Pattern, at: nat) returns (hit: bool)
    requires p.Valid() && at + |p.bytes| <= |region|
    ensures hit == MatchesAt(region, p, at)
  {
    for i := 0 to |p.bytes|
      invariant forall j :: 0 <= j < i && p.mask[j] ==> region[at + j] == p.bytes[j]
    {
      if p.mask[i] && region[at + i] != p.bytes[i] {
        return false;
      }
    }
    return true;
  }

  method FindMasked(region: seq<Byte>, p: Pattern) returns (r: Match)
    requires p.Valid()
    ensures r == MatchOf(region, p)
  {
    hide MatchesAt;
    r := Match(false, false, 0);
    if |p.bytes| == 0 {
      return;
    }
    if |p.bytes| > |region| {
      AllMatchesBelow(region, p, 0);
      return;
    }
    var last := |region| - |p.bytes|;
    for i := 0 to last + 1
      invariant r == var so := MatchesBelow(region, p, i);
                     if so == [] then Match(false, false, 0) else Match(true, true, so[0])
      invariant |MatchesBelow(region, p, i)| <= 1
    {
      var hit := MatchesHere(region, p, i);
      if hit {
        if !r.found {
          r := Match(true, true, i);
        } else {
          MatchesBelowIsPrefix(region, p, i + 1, |region| + 1);
          return r.(unique := false);
        }
      }
    }
    AllMatchesBelow(region, p, last + 1);
  }

  // ---- Resolving an entry ----

  datatype Kind = Code | DataRef

  datatype Entry = Entry(kind: Kind, pattern: Pattern, dispOff: nat, nextInsn: nat)

  // Little-endian, two's complement.
  function ReadI32(region: seq<Byte>, at: nat): (v: int)
    requires at + 4 <= |region|
    ensures -0x8000_0000 <= v < 0x8000_0000
  {
    var b0: int, b1: int, b2: int, b3: int := region[at], region[at + 1], region[at + 2], region[at + 3];
    var u := b0 + 0x100 * b1 + 0x1_0000 * b2 + 0x100_0000 * b3;
    if u >= 0x8000_0000 then u - 0x1_0000_0000 else u
  }

  function Resolve(region: seq<Byte>, base: nat, entry: Entry): nat
    requires entry.pattern.Valid()
  {
    var m := MatchOf(region, entry.pattern);
    if !m.found || !m.unique then 0
    else if entry.kind.Code? then (base + m.offset) % ADDRESS_SPACE
    else
      var dispAt := m.offset + entry.dispOff;
      if dispAt + 4 > |region| then 0
      else (base + m.offset + entry.nextInsn + ReadI32(region, dispAt)) % ADDRESS_SPACE
  }

  // The entry's displacement lies inside the text when its pattern matches at `at`.
  predicate InText(text: seq<Byte>, at: nat, entry: Entry) {
    entry.kind.Code? || at + entry.dispOff + 4 <= |text|
  }

  // The address an entry carved at text offset `at` denotes when the text is mapped at `base`.
  function Target(text: seq<Byte>, base: nat, at: nat, entry: Entry): nat
    requires InText(text, at, entry)
  {
    if entry.kind.Code? then (base + at) % ADDRESS_SPACE
    else (base + at + entry.nextInsn + ReadI32(text, at + entry.dispOff)) % ADDRESS_SPACE
  }

  // A unique pattern resolves to what it denotes if that can be read, and to the failure value if not.
  lemma UniqueResolves(text: seq<Byte>, base: nat, at: nat, entry: Entry)
    requires entry.pattern.Valid() && |entry.pattern.bytes| > 0 && UniqueAt(text, entry.pattern, at)
    ensures Resolve(text, base, entry) == if InText(text, at, entry) then Target(text, base, at, entry) else 0
  {
    UniqueIffOneListed(text, entry.pattern, at);
  }

  // Any other pattern resolves to the failure value: an empty one, one that matches nowhere, and one that
  // matches in two places, whatever it denotes there.
  lemma AmbiguousFails(text: seq<Byte>, base: nat, entry: Entry)
    requires entry.pattern.Valid()
    requires |entry.pattern.bytes| == 0 || !exists at: nat :: UniqueAt(text, entry.pattern, at)
    ensures Resolve(text, base, entry) == 0
  {
    var p, all := entry.pattern, AllMatches(text, entry.pattern);
    if |p.bytes| > 0 && |all| == 1 {
      var at := all[0];
      assert MatchesAt(text, p, at);
      assert !UniqueAt(text, p, at);
      UniqueIffOneListed(text, p, at);
    }
  }

  // A data reference resolves to what the linker pointed it at: if the displacement field holds the distance
  // from the next instruction to the target, that is the address found, wherever the module is loaded.
  lemma LinkedTargetResolves(text: seq<Byte>, base: nat, at: nat, entry: Entry, target: nat)
    requires entry.kind.DataRef? && entry.pattern.Valid() && |entry.pattern.bytes| > 0
    requires UniqueAt(text, entry.pattern, at) && at + entry.dispOff + 4 <= |text|
    requires target < 0x1_0000_0000_0000_0000
    requires var distance := target - (base + at + entry.nextInsn);
             && -0x8000_0000 <= distance < 0x8000_0000
             && text[at + entry.dispOff..at + entry.dispOff + 4] == I32Bytes(distance)
    ensures Resolve(text, base, entry) == target
  {
    var distance := target - (base + at + entry.nextInsn);
    UniqueResolves(text, base, at, entry);
    ReadOfWrite(distance);
    ReadSlice(text, at + entry.dispOff);
    hide Resolve, UniqueAt, ReadI32, I32Bytes;
    assert (base + at + entry.nextInsn) + distance == target;
  }

  lemma ReadSlice(region: seq<Byte>, at: nat)
    requires at + 4 <= |region|
    ensures ReadI32(region, at) == ReadI32(region[at..at + 4], 0)
  {
  }

  // Such an entry is of use at some load address exactly when its displacement lies inside the text; it then
  // fails at no two neighbouring ones.
  lemma ResolvableIff(text: seq<Byte>, at: nat, entry: Entry)
    requires entry.pattern.Valid() && |entry.pattern.bytes| > 0 && UniqueAt(text, entry.pattern, at)
    ensures InText(text, at, entry) <==> exists base: nat :: Resolve(text, base, entry) != 0
    ensures InText(text, at, entry) ==>
              forall base: nat :: Resolve(text, base, entry) != 0 || Resolve(text, base + 1, entry) != 0
  {
    forall base: nat
      ensures Resolve(text, base, entry) == if InText(text, at, entry) then Target(text, base, at, entry) else 0 {
      UniqueResolves(text, base, at, entry);
    }
    hide Resolve;
    if InText(text, at, entry) {
      forall base: nat ensures Resolve(text, base, entry) != 0 || Resolve(text, base + 1, entry) != 0 {
        var shift := Target(text, 0, at, entry);
        NeighboursDiffer(if entry.kind.Code? then base + at
                         else base + at + entry.nextInsn + ReadI32(text, at + entry.dispOff));
      }
      assert Resolve(text, 0, entry) != 0 || Resolve(text, 0 + 1, entry) != 0;
    }
  }

  lemma NeighboursDiffer(x: int)
    ensures x % ADDRESS_SPACE != 0 || (x + 1) % ADDRESS_SPACE != 0
  {
  }

  // ---- Displacements ----

  // Four bytes, least significant first.
  function I32Bytes(v: int): (r: seq<Byte>)
    ensures |r| == 4
  {
    var u := v % 0x1_0000_0000;
    [u % 0x100, u / 0x100 % 0x100, u / 0x1_0000 % 0x100, u / 0x100_0000]
  }

  // Writing undoes reading for every four bytes, and reading undoes writing for every 32-bit value.
  lemma WriteOfRead(region: seq<Byte>, at: nat)
    requires at + 4 <= |region|
    ensures I32Bytes(ReadI32(region, at)) == region[at..at + 4]
  {
    var b0: int, b1: int, b2: int, b3: int := region[at], region[at + 1], region[at + 2], region[at + 3];
    var u := b0 + 0x100 * b1 + 0x1_0000 * b2 + 0x100_0000 * b3;
    BytesOfSum(b0, b1, b2, b3);
    Unsigned(u);
    assert I32Bytes(ReadI32(region, at)) == [u % 0x100, u / 0x100 % 0x100, u / 0x1_0000 % 0x100, u / 0x100_0000];
  }

  lemma Unsigned(u: int)
    requires 0 <= u < 0x1_0000_0000
    ensures (if u >= 0x8000_0000 then u - 0x1_0000_0000 else u) % 0x1_0000_0000 == u
  {
  }

  lemma ReadOfWrite(v: int)
    requires -0x8000_0000 <= v < 0x8000_0000
    ensures ReadI32(I32Bytes(v), 0) == v
  {
    var u := v % 0x1_0000_0000;
    SumOfBytes(u);
  }

  lemma BytesOfSum(b0: Byte, b1: Byte, b2: Byte, b3: Byte)
    ensures var u := (b0 as int) + 0x100 * (b1 as int) + 0x1_0000 * (b2 as int) + 0x100_0000 * (b3 as int);
            && 0 <= u < 0x1_0000_0000
            && u % 0x100 == b0 && u / 0x100 % 0x100 == b1 && u / 0x1_0000 % 0x100 == b2 && u / 0x100_0000 == b3
  {
    var w: int, x: int, y: int, z: int := b0, b1, b2, b3;
    var u := w + 0x100 * x + 0x1_0000 * y + 0x100_0000 * z;
    assert u == 0x100 * (x + 0x100 * y + 0x1_0000 * z) + w;
    assert u / 0x100 == x + 0x100 * (y + 0x100 * z);
    assert u / 0x1_0000 == y + 0x100 * z;
  }

  lemma SumOfBytes(u: int)
    requires 0 <= u < 0x1_0000_0000
    ensures u % 0x100 + 0x100 * (u / 0x100 % 0x100) +
            0x1_0000 * (u / 0x1_0000 % 0x100) + 0x100_0000 * (u / 0x100_0000) == u
  {
    assert u == u % 0x100 + 0x100 * (u / 0x100);
    assert u / 0x100 == u / 0x100 % 0x100 + 0x100 * (u / 0x1_0000);
    assert u / 0x1_0000 == u / 0x1_0000 % 0x100 + 0x100 * (u / 0x100_0000);
  }
}
