/**
  The build-time half: an anchored search that agrees with the naive scan, and the carving of a pattern
  that the runtime resolver takes back to where it was cut.
 */
module Carving {
  import opened Signatures

  // ---- The anchored search ----

  predicate FixedRun(mask: seq<bool>, a: int, b: int) {
    0 <= a <= b <= |mask| && forall k :: a <= k < b ==> mask[k]
  }

  method LongestFixedRun(mask: seq<bool>) returns (start: nat, length: nat)
    ensures FixedRun(mask, start, start + length)
    ensures forall a, b :: FixedRun(mask, a, b) ==> b - a <= length
    ensures forall a, b :: FixedRun(mask, a, b) && a < start ==> b - a < length
    ensures length == 0 ==> start == 0
  {
    start, length := 0, 0;
    var i, n := 0, |mask|;
    while i < n
      invariant i <= n
      invariant FixedRun(mask, start, start + length)
      invariant length == 0 ==> start == 0
      invariant forall a, b :: FixedRun(mask, a, b) && a < i ==> b - a <= length
      invariant forall a, b :: FixedRun(mask, a, b) && a < start ==> b - a < length
      invariant start <= i
    {
      if mask[i] {
        var j := i + 1;
        while j < n && mask[j]
          invariant i < j <= n && FixedRun(mask, i, j)
        {
          j := j + 1;
        }
        assert forall a, b :: FixedRun(mask, a, b) && i <= a < j ==> b <= j;
        if j - i > length {
          start, length := i, j - i;
        }
        i := j;
      } else {
        assert forall b :: FixedRun(mask, i, b) ==> b == i;
        i := i + 1;
      }
    }
  }

  predicate OccursAt(text: seq<Byte>, anchor: seq<Byte>, h: int) {
    0 <= h <= |text| - |anchor| && text[h..h + |anchor|] == anchor
  }

  // bytes.find: the first occurrence at or after pos, or -1.
  function Find(text: seq<Byte>, anchor: seq<Byte>, pos: nat): (h: int)
    ensures h < 0 ==> forall k :: pos <= k ==> !OccursAt(text, anchor, k)
    ensures h >= 0 ==> pos <= h <= |text| - |anchor| && OccursAt(text, anchor, h)
    ensures h >= 0 ==> forall k :: pos <= k < h ==> !OccursAt(text, anchor, k)
    decreases |text| - pos
  {
    if pos > |text| - |anchor| then -1
    else if OccursAt(text, anchor, pos) then pos
    else if pos >= |text| then -1
    else Find(text, anchor, pos + 1)
  }

  function Min(a: int, b: int): int { if a < b then a else b }

  function Max(a: int, b: int): int { if a > b then a else b }

  function Take(s: seq<nat>, cap: int): seq<nat> {
    if cap <= 0 then [] else s[..Min(cap, |s|)]
  }

  // How many start positions are decided once the search has passed `pos`.
  function Decided(pos: nat, anchorAt: nat, last: nat): nat {
    Min(Max(pos - anchorAt, 0), last + 1)
  }

  // The cap the code really honours: an anchored search tests it only after a hit.
  function EffectiveCap(mask: seq<bool>, cap: int): int {
    if exists k :: 0 <= k < |mask| && mask[k] then Max(cap, 1) else cap
  }

  // For every text, pattern, mask and cap the fast search returns what the naive scan would.
  method MatchOffsets(text: seq<Byte>, p: Pattern, cap: int) returns (hits: seq<nat>)
    requires p.Valid()
    ensures hits == Take(AllMatches(text, p), EffectiveCap(p.mask, cap))
  {
    hits := [];
    if |text| < |p.bytes| {
      AllMatchesBelow(text, p, 0);
      return;
    }
    var last := |text| - |p.bytes|;
    AllMatchesBelow(text, p, last + 1);
    var anchorAt, anchorLen := LongestFixedRun(p.mask);
    if anchorLen == 0 {
      assert forall k :: 0 <= k < |p.mask| ==> (p.mask[k] ==> FixedRun(p.mask, k, k + 1));
      WildcardMatches(text, p, last);
      hits := seq(Max(Min(last + 1, cap), 0), i => i);
    } else {
      assert p.mask[anchorAt];
      hits := AnchoredSearch(text, p, cap, anchorAt, anchorLen, last);
    }
  }

  method AnchoredSearch(text: seq<Byte>, p: Pattern, cap: int, anchorAt: nat, anchorLen: nat, last: nat)
    returns (hits: seq<nat>)
    requires p.Valid() && last == |text| - |p.bytes| &&
             FixedRun(p.mask, anchorAt, anchorAt + anchorLen) && anchorLen > 0
    ensures hits == Take(MatchesBelow(text, p, last + 1), Max(cap, 1))
  {
    hide MatchesAt, OccursAt, MatchesBelow;
    hits := [];
    var anchor := p.bytes[anchorAt..anchorAt + anchorLen];
    var pos := 0;
    NothingDecided(text, p, anchorAt, last);
    while true
      invariant hits == MatchesBelow(text, p, Decided(pos, anchorAt, last))
      invariant |hits| < Max(cap, 1)
      invariant pos <= |text| + 1
      decreases |text| + 1 - pos
    {
      var h := Find(text, anchor, pos);
      SkipToAnchor(text, p, anchorAt, anchorLen, pos, h, last);
      if h < 0 {
        break;
      }
      DecideOne(text, p, h, anchorAt, last);
      pos := h + 1;
      var start := h - anchorAt;
      if start < 0 || start > last {
        continue;
      }
      if MatchesAt(text, p, start) {
        hits := hits + [start];
        if |hits| >= cap {
          MatchesBelowIsPrefix(text, p, Decided(pos, anchorAt, last), last + 1);
          break;
        }
      }
    }
  }

  lemma NothingDecided(text: seq<Byte>, p: Pattern, anchorAt: nat, last: nat)
    requires p.Valid()
    ensures MatchesBelow(text, p, Decided(0, anchorAt, last)) == []
  {
  }

  lemma DecideOne(text: seq<Byte>, p: Pattern, h: nat, anchorAt: nat, last: nat)
    requires p.Valid()
    ensures var start := h - anchorAt;
            MatchesBelow(text, p, Decided(h + 1, anchorAt, last)) ==
            MatchesBelow(text, p, Decided(h, anchorAt, last)) +
            (if 0 <= start <= last && MatchesAt(text, p, start) then [start] else [])
  {
  }

  // A match puts the anchor exactly at its own start plus anchorAt, so none starts where the search jumps over.
  lemma SkipToAnchor(text: seq<Byte>, p: Pattern, anchorAt: nat, anchorLen: nat, pos: nat, h: int, last: nat)
    requires p.Valid() && last == |text| - |p.bytes| && FixedRun(p.mask, anchorAt, anchorAt + anchorLen)
    requires h == Find(text, p.bytes[anchorAt..anchorAt + anchorLen], pos)
    ensures MatchesBelow(text, p, Decided(pos, anchorAt, last)) ==
            MatchesBelow(text, p, if h < 0 then last + 1 else Decided(h, anchorAt, last))
  {
    var anchor := p.bytes[anchorAt..anchorAt + anchorLen];
    forall at | MatchesAt(text, p, at) ensures OccursAt(text, anchor, at + anchorAt) {
      var h := at + anchorAt;
      forall k | 0 <= k < anchorLen ensures text[h..h + anchorLen][k] == anchor[k] {
        assert p.mask[anchorAt + k] && text[at + (anchorAt + k)] == p.bytes[anchorAt + k];
      }
    }
    var from, to := Decided(pos, anchorAt, last), if h < 0 then last + 1 else Decided(h, anchorAt, last);
    forall at | from <= at < to ensures !MatchesAt(text, p, at) {
      assert !OccursAt(text, anchor, at + anchorAt);
    }
    SkipNonMatches(text, p, from, to);
  }

  // Everything matches a pattern without a fixed byte.
  lemma WildcardMatches(text: seq<Byte>, p: Pattern, last: nat)
    requires p.Valid() && last == |text| - |p.bytes| && forall k :: 0 <= k < |p.mask| ==> !p.mask[k]
    ensures MatchesBelow(text, p, last + 1) == seq(last + 1, i => i)
  {
    for n := 0 to last + 1
      invariant MatchesBelow(text, p, n) == seq(n, i => i)
    {
    }
  }

  method CountMatches(text: seq<Byte>, p: Pattern, cap: nat) returns (n: nat)
    requires p.Valid() && cap >= 1
    ensures n == Min(|AllMatches(text, p)|, cap)
  {
    var hits := MatchOffsets(text, p, cap);
    n := |hits|;
  }

  // ---- Carving ----

  // What the disassembler says about one instruction: the bytes whose value moves between builds, and
  // whether it refers to code or data.
  datatype Instr = Instr(len: nat, wildcards: set<nat>, anchor: bool, invalid: bool)

  datatype Outcome = Carved(pattern: Pattern) | OutsideText | NotUnique

  function Length(instrs: seq<Instr>, k: nat): nat
    requires k <= |instrs|
  {
    if k == 0 then 0 else Length(instrs, k - 1) + instrs[k - 1].len
  }

  function InstrMask(instr: Instr): seq<bool> {
    seq(instr.len, k => k !in instr.wildcards)
  }

  function MaskOf(instrs: seq<Instr>, k: nat): (m: seq<bool>)
    requires k <= |instrs|
    ensures |m| == Length(instrs, k)
  {
    if k == 0 then [] else MaskOf(instrs, k - 1) + InstrMask(instrs[k - 1])
  }

  predicate Ends(instrs: seq<Instr>, k: nat) {
    k >= |instrs| || instrs[k].invalid || instrs[k].len == 0
  }

  // The decoder reads inside the code it was given.
  predicate Decodes(code: seq<Byte>, instrs: seq<Instr>) {
    Length(instrs, |instrs|) <= |code|
  }

  predicate Anchored(instrs: seq<Instr>, k: nat) {
    exists i :: 0 <= i < k <= |instrs| && instrs[i].anchor
  }

  // The pattern made of the first k instructions at `off`.
  function Prefix(text: seq<Byte>, off: nat, instrs: seq<Instr>, k: nat): (p: Pattern)
    requires k <= |instrs| && off + Length(instrs, k) <= |text|
    ensures p.Valid() && MatchesAt(text, p, off)
  {
    Pattern(text[off..off + Length(instrs, k)], MaskOf(instrs, k))
  }

  lemma {:induction false} LengthGrows(instrs: seq<Instr>, j: nat, k: nat)
    requires j <= k <= |instrs|
    ensures Length(instrs, j) <= Length(instrs, k)
    ensures MaskOf(instrs, j) <= MaskOf(instrs, k)
  {
    if j < k {
      LengthGrows(instrs, j, k - 1);
    }
  }

  // What a pattern compares: exactly the bytes of its instructions that do not move between builds.
  lemma {:induction false} MaskMeans(instrs: seq<Instr>, k: nat, i: nat, b: nat)
    requires i < k <= |instrs| && b < instrs[i].len
    ensures Length(instrs, i) + b < |MaskOf(instrs, k)|
    ensures MaskOf(instrs, k)[Length(instrs, i) + b] <==> b !in instrs[i].wildcards
  {
    if i < k - 1 {
      MaskMeans(instrs, k - 1, i, b);
    }
  }

  // Growing a pattern keeps the start site and never gains a match, so uniqueness, once reached, stays.
  lemma UniquenessIsSticky(text: seq<Byte>, off: nat, instrs: seq<Instr>, j: nat, k: nat)
    requires j <= k <= |instrs| && off + Length(instrs, |instrs|) <= |text|
    requires LengthsOk(text, off, instrs, j) && LengthsOk(text, off, instrs, k)
    requires UniqueAt(text, Prefix(text, off, instrs, j), off)
    ensures UniqueAt(text, Prefix(text, off, instrs, k), off)
  {
    LengthGrows(instrs, j, k);
    var p, q := Prefix(text, off, instrs, j), Prefix(text, off, instrs, k);
    forall at | MatchesAt(text, q, at) ensures at == off {
      forall i | 0 <= i < |p.bytes| && p.mask[i] ensures text[at + i] == p.bytes[i] {
        assert q.mask[i] && q.bytes[i] == p.bytes[i];
      }
      assert MatchesAt(text, p, at);
    }
  }

  predicate LengthsOk(text: seq<Byte>, off: nat, instrs: seq<Instr>, k: nat) {
    k <= |instrs| && off + Length(instrs, k) <= |text|
  }

  // How many instructions end up in the pattern, looking on from the first k; None when none is unique.
  ghost function CarveFrom(text: seq<Byte>, off: nat, instrs: seq<Instr>, maxBytes: nat,
                               wantAnchor: bool, k: nat): (n: int)
    requires off + Length(instrs, |instrs|) <= |text| && k <= |instrs|
    ensures n <= |instrs|
    decreases |instrs| - k
  {
    LengthGrows(instrs, k, |instrs|);
    var unique := k > 0 && UniqueAt(text, Prefix(text, off, instrs, k), off);
    if unique && (Anchored(instrs, k) || !wantAnchor) then k
    else if Ends(instrs, k) || (k > 0 && Length(instrs, k) >= maxBytes) then (if unique then k else -1)
    else CarveFrom(text, off, instrs, maxBytes, wantAnchor, k + 1)
  }

  method Carve(text: seq<Byte>, textRva: int, startRva: int, maxBytes: nat, wantAnchor: bool, instrs: seq<Instr>)
    returns (r: Outcome)
    requires var off := startRva - textRva;
             0 <= off < |text| ==> Decodes(text[off..Min(off + maxBytes + 16, |text|)], instrs)
    ensures r.OutsideText? <==> !(0 <= startRva - textRva < |text|)
    ensures !r.OutsideText? ==>
              var off := startRva - textRva;
              var k := CarveFrom(text, off, instrs, maxBytes, wantAnchor, 0);
              (r.NotUnique? <==> k < 0) &&
              (r.Carved? ==> 0 < k <= |instrs| && LengthsOk(text, off, instrs, k)
                               && r.pattern == Prefix(text, off, instrs, k))
    ensures r.Carved? ==> r.pattern.Valid() && |r.pattern.bytes| > 0 && UniqueAt(text, r.pattern, startRva - textRva)
  {
    var off := startRva - textRva;
    if !(0 <= off < |text|) {
      return OutsideText;
    }
    var code := text[off..Min(off + maxBytes + 16, |text|)];
    var grown, unique, anchored := Pattern([], []), false, false;
    var k := 0;
    while k < |instrs| && !(instrs[k].invalid || instrs[k].len == 0)
      invariant k <= |instrs| && LengthsOk(text, off, instrs, k) && grown == Prefix(text, off, instrs, k)
      invariant unique <==> k > 0 && UniqueAt(text, Prefix(text, off, instrs, k), off)
      invariant anchored <==> Anchored(instrs, k)
      invariant k > 0 ==> !(unique && (anchored || !wantAnchor)) && 0 < |grown.bytes| < maxBytes
      invariant CarveFrom(text, off, instrs, maxBytes, wantAnchor, 0) ==
                CarveFrom(text, off, instrs, maxBytes, wantAnchor, k)
    {
      anchored := anchored || instrs[k].anchor;
      grown := Grow(text, off, code, instrs, k, grown);
      unique := StillUnique(text, off, instrs, k, grown, unique);
      k := k + 1;
      if unique && (anchored || !wantAnchor) {
        return Carved(grown);
      }
      if |grown.bytes| >= maxBytes {
        return if unique then Carved(grown) else NotUnique;
      }
    }
    return if unique then Carved(grown) else NotUnique;
  }

  // Append one instruction's bytes, its moving ones as wildcards.
  method Grow(text: seq<Byte>, off: nat, code: seq<Byte>, instrs: seq<Instr>, k: nat, pattern: Pattern)
    returns (grown: Pattern)
    requires off + |code| <= |text| && code == text[off..off + |code|] && Decodes(code, instrs)
    requires k < |instrs| && LengthsOk(text, off, instrs, k) && pattern == Prefix(text, off, instrs, k)
    ensures LengthsOk(text, off, instrs, k + 1) && grown == Prefix(text, off, instrs, k + 1)
  {
    LengthGrows(instrs, k + 1, |instrs|);
    var instr, pos := instrs[k], |pattern.bytes|;
    grown := pattern;
    for i := 0 to instr.len
      invariant grown.bytes == code[..pos + i] && grown.mask == pattern.mask + InstrMask(instr)[..i]
    {
      grown := Pattern(grown.bytes + [code[pos + i]], grown.mask + [i !in instr.wildcards]);
    }
    assert InstrMask(instr)[..instr.len] == InstrMask(instr);
  }

  // Uniqueness is asked again only while it has not been reached.
  method StillUnique(text: seq<Byte>, off: nat, instrs: seq<Instr>, k: nat, grown: Pattern, unique: bool)
    returns (r: bool)
    requires k < |instrs| && LengthsOk(text, off, instrs, |instrs|)
    requires LengthsOk(text, off, instrs, k) && LengthsOk(text, off, instrs, k + 1)
    requires grown == Prefix(text, off, instrs, k + 1)
    requires unique <==> k > 0 && UniqueAt(text, Prefix(text, off, instrs, k), off)
    ensures r <==> UniqueAt(text, grown, off)
  {
    if unique {
      UniquenessIsSticky(text, off, instrs, k, k + 1);
      return true;
    }
    var n := CountMatches(text, grown, 2);
    UniqueIffOneListed(text, grown, off);
    return n == 1;
  }

  // Carving without asking for a cross-reference gives the shortest unique pattern, and a carve that asks
  // for one gives the shortest that has both, unless it is the whole run of instructions it may use.
  lemma {:induction false} CarveIsShortest(text: seq<Byte>, off: nat, instrs: seq<Instr>, maxBytes: nat,
                                           wantAnchor: bool, from: nat, j: nat)
    requires off + Length(instrs, |instrs|) <= |text|
    requires LengthsOk(text, off, instrs, j)
    requires from <= j && 0 < j < CarveFrom(text, off, instrs, maxBytes, wantAnchor, from)
    ensures !UniqueAt(text, Prefix(text, off, instrs, j), off) || (wantAnchor && !Anchored(instrs, j))
    decreases j - from
  {
    if from < j {
      CarveIsShortest(text, off, instrs, maxBytes, wantAnchor, from + 1, j);
    }
  }

  lemma {:induction false} UniqueNeverFails(text: seq<Byte>, off: nat, instrs: seq<Instr>, maxBytes: nat,
                                            wantAnchor: bool, k: nat)
    requires off + Length(instrs, |instrs|) <= |text| && 0 < k && LengthsOk(text, off, instrs, k)
    requires UniqueAt(text, Prefix(text, off, instrs, k), off)
    ensures CarveFrom(text, off, instrs, maxBytes, wantAnchor, k) >= k
    decreases |instrs| - k
  {
    if !Ends(instrs, k) {
      LengthGrows(instrs, k + 1, |instrs|);
      UniquenessIsSticky(text, off, instrs, k, k + 1);
      UniqueNeverFails(text, off, instrs, maxBytes, wantAnchor, k + 1);
    }
  }

  // Where a carve ends: at a unique pattern the growth gets to, and one without the cross-reference asked for
  // only where the growth ends.
  lemma {:induction false} CarveEndsAt(text: seq<Byte>, off: nat, instrs: seq<Instr>, maxBytes: nat,
                                       wantAnchor: bool, k: nat)
    requires off + Length(instrs, |instrs|) <= |text| && GrowsTo(instrs, maxBytes, k)
    requires CarveFrom(text, off, instrs, maxBytes, wantAnchor, k) >= 0
    ensures var n := CarveFrom(text, off, instrs, maxBytes, wantAnchor, k);
            && k <= n && GrowsTo(instrs, maxBytes, n) && UniqueBy(text, off, instrs, n)
            && (wantAnchor && !Anchored(instrs, n) ==>
                  n == |instrs| || instrs[n].invalid || instrs[n].len == 0 || Length(instrs, n) >= maxBytes)
    decreases |instrs| - k
  {
    LengthGrows(instrs, k, |instrs|);
    var unique := k > 0 && UniqueAt(text, Prefix(text, off, instrs, k), off);
    if !(unique && (Anchored(instrs, k) || !wantAnchor)) && !Ends(instrs, k)
       && !(k > 0 && Length(instrs, k) >= maxBytes) {
      CarveEndsAt(text, off, instrs, maxBytes, wantAnchor, k + 1);
    }
  }

  // A failed carve means no pattern it may use is unique.
  lemma {:induction false} FailedCarveMeansNoneUnique(text: seq<Byte>, off: nat, instrs: seq<Instr>,
                                                      maxBytes: nat, wantAnchor: bool,
                                                      from: nat, j: nat)
    requires off + Length(instrs, |instrs|) <= |text|
    requires LengthsOk(text, off, instrs, j) && from <= j && 0 < j
    requires CarveFrom(text, off, instrs, maxBytes, wantAnchor, from) < 0
    requires forall i :: from <= i < j ==> !Ends(instrs, i) && (i == 0 || Length(instrs, i) < maxBytes)
    ensures !UniqueAt(text, Prefix(text, off, instrs, j), off)
    decreases j - from
  {
    if from < j {
      FailedCarveMeansNoneUnique(text, off, instrs, maxBytes, wantAnchor, from + 1, j);
    } else if UniqueAt(text, Prefix(text, off, instrs, j), off) {
      UniqueNeverFails(text, off, instrs, maxBytes, wantAnchor, j);
    }
  }

  // The pattern made of the first j instructions is unique.
  ghost predicate UniqueBy(text: seq<Byte>, off: nat, instrs: seq<Instr>, j: nat) {
    LengthsOk(text, off, instrs, j) && UniqueAt(text, Prefix(text, off, instrs, j), off)
  }

  // The growth gets as far as m instructions: none before ends it, and the byte limit is not reached before.
  predicate GrowsTo(instrs: seq<Instr>, maxBytes: nat, m: nat) {
    m <= |instrs| && forall j :: 0 <= j < m ==> !Ends(instrs, j) && (j == 0 || Length(instrs, j) < maxBytes)
  }

  // The first m instructions are the first to be unique.
  ghost predicate FirstUnique(text: seq<Byte>, off: nat, instrs: seq<Instr>, m: nat) {
    0 < m && UniqueBy(text, off, instrs, m) && forall j :: 0 < j < m ==> !UniqueBy(text, off, instrs, j)
  }

  // Where the first m instructions are the first to be unique, the carve stops there, minimal, exactly when no
  // cross-reference is asked for, it has one by then, or it cannot grow further.
  lemma FallbackMinimalIff(text: seq<Byte>, off: nat, instrs: seq<Instr>, maxBytes: nat, wantAnchor: bool, m: nat)
    requires off + Length(instrs, |instrs|) <= |text|
    requires FirstUnique(text, off, instrs, m) && GrowsTo(instrs, maxBytes, m)
    ensures CarveFrom(text, off, instrs, maxBytes, wantAnchor, 0) == m <==>
            !wantAnchor || Anchored(instrs, m) || Ends(instrs, m) || Length(instrs, m) >= maxBytes
  {
    ReachesFirstUnique(text, off, instrs, maxBytes, wantAnchor, m, 0);
    if !Ends(instrs, m) {
      LengthGrows(instrs, m + 1, |instrs|);
      UniquenessIsSticky(text, off, instrs, m, m + 1);
      UniqueNeverFails(text, off, instrs, maxBytes, wantAnchor, m + 1);
    }
  }

  // Before anything is unique the growth goes on.
  lemma {:induction false} ReachesFirstUnique(text: seq<Byte>, off: nat, instrs: seq<Instr>, maxBytes: nat,
                                              wantAnchor: bool, m: nat, i: nat)
    requires off + Length(instrs, |instrs|) <= |text| && i <= m
    requires FirstUnique(text, off, instrs, m) && GrowsTo(instrs, maxBytes, m)
    ensures CarveFrom(text, off, instrs, maxBytes, wantAnchor, i) ==
            CarveFrom(text, off, instrs, maxBytes, wantAnchor, m)
    decreases m - i
  {
    if i < m {
      ReachesFirstUnique(text, off, instrs, maxBytes, wantAnchor, m, i + 1);
      LengthGrows(instrs, i, |instrs|);
      assert !Ends(instrs, i) && (i == 0 || Length(instrs, i) < maxBytes);
      assert i > 0 ==> !UniqueBy(text, off, instrs, i);
    }
  }

  // So the fallback without a cross-reference, the longest pattern, need not be minimal: here a lone nop is
  // unique already, and the carve returns it with the ret after it.
  lemma FallbackIsNotMinimal()
    ensures var text, instrs := [0x90, 0xC3], [Instr(1, {}, false, false), Instr(1, {}, false, false)];
            && LengthsOk(text, 0, instrs, 1) && LengthsOk(text, 0, instrs, 2)
            && UniqueAt(text, Prefix(text, 0, instrs, 1), 0)
            && CarveFrom(text, 0, instrs, 80, true, 0) == 2
  {
    var text: seq<Byte>, instrs := [0x90, 0xC3], [Instr(1, {}, false, false), Instr(1, {}, false, false)];
    assert Length(instrs, 1) == 1 && Length(instrs, 2) == 2;
    assert MaskOf(instrs, 1) == [true];
    var p := Prefix(text, 0, instrs, 1);
    forall at | MatchesAt(text, p, at) ensures at == 0 {
      assert p.mask[0] && text[at + 0] == p.bytes[0];
    }
    assert UniqueAt(text, p, 0);
    UniquenessIsSticky(text, 0, instrs, 1, 2);
    assert CarveFrom(text, 0, instrs, 80, true, 2) == 2;
    assert CarveFrom(text, 0, instrs, 80, true, 1) == 2;
  }

  // ---- Carving then resolving ----

  // One symbol of the mapping; a DataRef must come with both offsets.
  datatype Symbol = Symbol(kind: Kind, startRva: int, offsets: seq<nat>)

  // What the carve needs to succeed: a start inside the text, both offsets for a data reference, and some
  // pattern that is unique in time.
  ghost predicate Carvable(text: seq<Byte>, textRva: int, symbol: Symbol, instrs: seq<Instr>)
    requires var off := symbol.startRva - textRva;
             0 <= off < |text| ==> Decodes(text[off..Min(off + 96, |text|)], instrs)
  {
    var off := symbol.startRva - textRva;
    && (symbol.kind.DataRef? ==> |symbol.offsets| == 2)
    && 0 <= off < |text|
    && CarveFrom(text, off, instrs, 80, true, 0) > 0
  }

  // The round trip: whatever can be carved is, and at every load address the runtime resolver takes it back to
  // what its site denotes. Only a displacement outside the text, which nothing here checks for, resolves to 0.
  method CarveEntry(text: seq<Byte>, textRva: int, symbol: Symbol, instrs: seq<Instr>) returns (ok: bool, entry: Entry)
    requires var off := symbol.startRva - textRva;
             0 <= off < |text| ==> Decodes(text[off..Min(off + 96, |text|)], instrs)
    ensures ok <==> Carvable(text, textRva, symbol, instrs)
    ensures ok ==> entry.kind == symbol.kind && entry.pattern.Valid() && 0 <= symbol.startRva - textRva < |text|
    ensures ok && symbol.kind.DataRef? ==> [entry.dispOff, entry.nextInsn] == symbol.offsets
    ensures ok ==> ResolvesAt(text, symbol.startRva - textRva, entry)
  {
    entry := Entry(symbol.kind, Pattern([], []), 0, 0);
    if symbol.kind.DataRef? {
      if |symbol.offsets| != 2 {
        return false, entry;
      }
      entry := entry.(dispOff := symbol.offsets[0], nextInsn := symbol.offsets[1]);
    }
    var r := Carve(text, textRva, symbol.startRva, 80, true, instrs);
    if !r.Carved? {
      return false, entry;
    }
    hide CarveFrom, UniqueAt, Prefix, ResolvesAt;
    entry := entry.(pattern := r.pattern);
    UniqueResolvesAt(text, symbol.startRva - textRva, entry);
    ok := true;
  }

  // At every load address: the target if its displacement can be read, the failure value otherwise.
  ghost predicate ResolvesAt(text: seq<Byte>, at: nat, entry: Entry)
    requires entry.pattern.Valid()
  {
    forall base: nat :: Resolve(text, base, entry) ==
      if InText(text, at, entry) then Target(text, base, at, entry) else 0
  }

  lemma UniqueResolvesAt(text: seq<Byte>, at: nat, entry: Entry)
    requires entry.pattern.Valid() && |entry.pattern.bytes| > 0 && UniqueAt(text, entry.pattern, at)
    ensures ResolvesAt(text, at, entry)
  {
    forall base: nat
      ensures Resolve(text, base, entry) == if InText(text, at, entry) then Target(text, base, at, entry) else 0 {
      UniqueResolves(text, base, at, entry);
    }
  }
}
