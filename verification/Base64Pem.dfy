/**
  The certificate printer: base64 over arbitrary bytes and the 64-column body of a PEM block, with the
  decoder of RFC 4648 section 4 as the reference and RFC 7468 section 2 for the lines.
 */
module Base64Pem {

  type Byte = b: int | 0 <= b < 256
  type Sextet = v: int | 0 <= v < 64

  const LINE: nat := 64

  datatype Option<+T> = None | Some(value: T)

  // The table: the upper-case letters, the lower-case ones, the digits, plus and slash.
  function Digit(v: Sextet): char {
    if v < 26 then ('A' as int + v) as char
    else if v < 52 then ('a' as int + (v - 26)) as char
    else if v < 62 then ('0' as int + (v - 52)) as char
    else if v == 62 then '+' else '/'
  }

  // A right shift by 18, 12, 6 or 0 and the low six bits of the result.
  function Bits(n: nat, shift: nat): (v: Sextet) {
    (if shift == 18 then n / 0x4_0000 else if shift == 12 then n / 0x1000 else if shift == 6 then n / 0x40 else n) % 64
  }

  function Group(a: Byte, b: Byte, c: Byte): (n: nat) { (a as int) * 0x1_0000 + (b as int) * 0x100 + c as int }

  function Triple(a: Byte, b: Byte, c: Byte): (s: string)
    ensures |s| == 4
  {
    var n := Group(a, b, c);
    [Digit(Bits(n, 18)), Digit(Bits(n, 12)), Digit(Bits(n, 6)), Digit(Bits(n, 0))]
  }

  // The last one or two bytes, padded.
  function Tail(data: seq<Byte>): string
    requires |data| < 3
  {
    if |data| == 0 then ""
    else if |data| == 1 then Triple(data[0], 0, 0)[..2] + "=="
    else Triple(data[0], data[1], 0)[..3] + "="
  }

  function Whole(data: seq<Byte>, groups: nat): string
    requires 3 * groups <= |data|
  {
    if groups == 0 then ""
    else Whole(data, groups - 1) + Triple(data[3 * groups - 3], data[3 * groups - 2], data[3 * groups - 1])
  }

  function Encode(data: seq<Byte>): string {
    Whole(data, |data| / 3) + Tail(data[3 * (|data| / 3)..])
  }

  method Base64(data: seq<Byte>) returns (out: string)
    ensures out == Encode(data)
  {
    hide Digit, Bits, Group;
    out := "";
    var i := 0;
    ghost var groups := 0;
    while i + 3 <= |data|
      invariant i == 3 * groups <= |data|
      invariant out == Whole(data, groups)
    {
      var n := Group(data[i], data[i + 1], data[i + 2]);
      out := out + [Digit(Bits(n, 18)), Digit(Bits(n, 12)), Digit(Bits(n, 6)), Digit(Bits(n, 0))];
      i, groups := i + 3, groups + 1;
    }
    assert groups == |data| / 3;
    var end := Padded(data[i..]);
    out := out + end;
  }

  // The two shorter branches after the loop.
  method Padded(rest: seq<Byte>) returns (end: string)
    requires |rest| < 3
    ensures end == Tail(rest)
  {
    hide Digit, Bits, Group;
    end := "";
    if |rest| == 1 {
      var n := Group(rest[0], 0, 0);
      end := [Digit(Bits(n, 18)), Digit(Bits(n, 12))] + "==";
      assert Triple(rest[0], 0, 0)[..2] == [Digit(Bits(n, 18)), Digit(Bits(n, 12))];
    } else if |rest| == 2 {
      var n := Group(rest[0], rest[1], 0);
      end := [Digit(Bits(n, 18)), Digit(Bits(n, 12)), Digit(Bits(n, 6))] + "=";
      assert Triple(rest[0], rest[1], 0)[..3] == [Digit(Bits(n, 18)), Digit(Bits(n, 12)), Digit(Bits(n, 6))];
    }
  }

  // ---- The reference decoder ----

  function Value(c: char): Option<Sextet> {
    if 'A' <= c <= 'Z' then Some(c as int - 'A' as int)
    else if 'a' <= c <= 'z' then Some(c as int - 'a' as int + 26)
    else if '0' <= c <= '9' then Some(c as int - '0' as int + 52)
    else if c == '+' then Some(62)
    else if c == '/' then Some(63)
    else None
  }

  // One quartet: padding allowed at its end, the bits under it zero.
  function DecodeQuartet(s: string): Option<seq<Byte>>
    requires |s| == 4
  {
    var v0, v1, v2, v3 := Value(s[0]), Value(s[1]), Value(s[2]), Value(s[3]);
    if v0.None? || v1.None? then None
    else if s[2] == '=' && s[3] == '=' then
      (if Low(v1.value, 16) == 0 then Some([First(v0.value, v1.value)]) else None)
    else if v2.None? then None
    else if s[3] == '=' then
      (if Low(v2.value, 4) == 0 then Some([First(v0.value, v1.value), Second(v1.value, v2.value)]) else None)
    else if v3.None? then None
    else Some([First(v0.value, v1.value), Second(v1.value, v2.value), Third(v2.value, v3.value)])
  }

  function Low(v: Sextet, m: int): int
    requires m > 0
  {
    v % m
  }

  // The three bytes under four sextets.
  function First(v0: Sextet, v1: Sextet): Byte { 4 * (v0 as int) + (v1 as int) / 16 }

  function Second(v1: Sextet, v2: Sextet): Byte { 16 * ((v1 as int) % 16) + (v2 as int) / 4 }

  function Third(v2: Sextet, v3: Sextet): Byte { 64 * ((v2 as int) % 4) + v3 as int }

  // Whole quartets from the left; only the last may be padded.
  function Decode(s: string): Option<seq<Byte>> {
    if s == "" then Some([])
    else if |s| < 4 then None
    else
      var init, last := s[..|s| - 4], s[|s| - 4..];
      var before, here := Decode(init), DecodeQuartet(last);
      if '=' in init || before.None? || here.None? then None else Some(before.value + here.value)
  }

  lemma DigitValue(v: Sextet)
    ensures Value(Digit(v)) == Some(v) && Digit(v) != '=' && Digit(v) != '\n'
  {
  }

  // Dividing a 24-bit group at the three sextet borders.
  lemma GroupTop(a: int, b: int, c: int)
    requires 0 <= a < 256 && 0 <= b < 256 && 0 <= c < 256
    ensures (0x1_0000 * a + 0x100 * b + c) / 0x4_0000 == a / 4
  {
    var rest := 0x1_0000 * (a % 4) + 0x100 * b + c;
    assert 0x1_0000 * a + 0x100 * b + c == 0x4_0000 * (a / 4) + rest;
    assert 0 <= rest < 0x4_0000;
  }

  lemma GroupHigh(a: int, b: int, c: int)
    requires 0 <= a < 256 && 0 <= b < 256 && 0 <= c < 256
    ensures (0x1_0000 * a + 0x100 * b + c) / 0x1000 == 16 * a + b / 16
  {
    var rest := 0x100 * (b % 16) + c;
    assert 0x1_0000 * a + 0x100 * b + c == 0x1000 * (16 * a + b / 16) + rest;
    assert 0 <= rest < 0x1000;
  }

  lemma GroupLow(a: int, b: int, c: int)
    requires 0 <= a < 256 && 0 <= b < 256 && 0 <= c < 256
    ensures (0x1_0000 * a + 0x100 * b + c) / 0x40 == 1024 * a + 4 * b + c / 64
  {
    assert 0x1_0000 * a + 0x100 * b + c == 0x40 * (1024 * a + 4 * b + c / 64) + c % 64;
  }

  lemma Mod64(k: int, r: int)
    requires 0 <= r < 64
    ensures (64 * k + r) % 64 == r
  {
  }

  // The four sextets of a group, byte by byte.
  lemma SextetsOf(a: Byte, b: Byte, c: Byte)
    ensures var n := Group(a, b, c);
            && Bits(n, 18) == (a as int) / 4
            && Bits(n, 12) == 16 * ((a as int) % 4) + (b as int) / 16
            && Bits(n, 6) == 4 * ((b as int) % 16) + (c as int) / 64
            && Bits(n, 0) == (c as int) % 64
  {
    var x: int, y: int, z: int := a, b, c;
    GroupTop(x, y, z);
    GroupHigh(x, y, z);
    GroupLow(x, y, z);
    assert x == 4 * (x / 4) + x % 4 && y == 16 * (y / 16) + y % 16 && z == 64 * (z / 64) + z % 64;
    Mod64(0, x / 4);
    Mod64(x / 4, 16 * (x % 4) + y / 16);
    Mod64(16 * x + y / 16, 4 * (y % 16) + z / 64);
    Mod64(1024 * x + 4 * y + z / 64, z % 64);
  }

  lemma BytesFrom(a: int, b: int, c: int)
    requires 0 <= a < 256 && 0 <= b < 256 && 0 <= c < 256
    ensures First(a / 4, 16 * (a % 4) + b / 16) == a
    ensures Second(16 * (a % 4) + b / 16, 4 * (b % 16) + c / 64) == b
    ensures Third(4 * (b % 16) + c / 64, c % 64) == c
  {
  }

  // What a decoder sees in a printed group.
  lemma QuartetOf(a: Byte, b: Byte, c: Byte)
    ensures var s := Triple(a, b, c);
            && Value(s[0]) == Some((a as int) / 4)
            && Value(s[1]) == Some(16 * ((a as int) % 4) + (b as int) / 16)
            && Value(s[2]) == Some(4 * ((b as int) % 16) + (c as int) / 64)
            && Value(s[3]) == Some((c as int) % 64)
            && First((a as int) / 4, 16 * ((a as int) % 4) + (b as int) / 16) == a
            && Second(16 * ((a as int) % 4) + (b as int) / 16, 4 * ((b as int) % 16) + (c as int) / 64) == b
            && Third(4 * ((b as int) % 16) + (c as int) / 64, (c as int) % 64) == c
  {
    var n := Group(a, b, c);
    SextetsOf(a, b, c);
    BytesFrom(a, b, c);
    hide First, Second, Third, Bits, Group;
    DigitValue(Bits(n, 18));
    DigitValue(Bits(n, 12));
    DigitValue(Bits(n, 6));
    DigitValue(Bits(n, 0));
    hide Digit, Value;
  }

  lemma TripleIsPlain(a: Byte, b: Byte, c: Byte)
    ensures '=' !in Triple(a, b, c) && '\n' !in Triple(a, b, c)
  {
    var n := Group(a, b, c);
    DigitValue(Bits(n, 18));
    DigitValue(Bits(n, 12));
    DigitValue(Bits(n, 6));
    DigitValue(Bits(n, 0));
    hide Bits, Group, Digit, Value;
  }

  lemma LowZero(b: Byte)
    ensures Low(4 * ((b as int) % 16), 4) == 0 && Low(16 * ((b as int) % 4), 16) == 0
  {
  }

  lemma ThreeBytesDecode(a: Byte, b: Byte, c: Byte)
    ensures DecodeQuartet(Triple(a, b, c)) == Some([a, b, c])
  {
    QuartetOf(a, b, c);
    TripleIsPlain(a, b, c);
    hide Triple, Value, First, Second, Third;
  }

  lemma PaddedOnce(t: string, v0: Sextet, v1: Sextet, v2: Sextet)
    requires |t| == 4 && t[2] != '=' && t[3] == '=' && Low(v2, 4) == 0
    requires Value(t[0]) == Some(v0) && Value(t[1]) == Some(v1) && Value(t[2]) == Some(v2)
    ensures DecodeQuartet(t) == Some([First(v0, v1), Second(v1, v2)])
  {
    hide Value, First, Second, Third, Low;
  }

  lemma PaddedTwice(t: string, v0: Sextet, v1: Sextet)
    requires |t| == 4 && t[2] == '=' && t[3] == '=' && Low(v1, 16) == 0
    requires Value(t[0]) == Some(v0) && Value(t[1]) == Some(v1)
    ensures DecodeQuartet(t) == Some([First(v0, v1)])
  {
    hide Value, First, Second, Third, Low;
  }

  lemma TwoBytesDecode(a: Byte, b: Byte)
    ensures DecodeQuartet(Triple(a, b, 0)[..3] + "=") == Some([a, b])
  {
    QuartetOf(a, b, 0);
    TripleIsPlain(a, b, 0);
    LowZero(b);
    hide *;
    var s := Triple(a, b, 0);
    var t := s[..3] + "=";
    assert t[0] == s[0] && t[1] == s[1] && t[2] == s[2] && t[3] == '=';
    PaddedOnce(t, (a as int) / 4, 16 * ((a as int) % 4) + (b as int) / 16, 4 * ((b as int) % 16));
  }

  lemma OneByteDecodes(a: Byte)
    ensures DecodeQuartet(Triple(a, 0, 0)[..2] + "==") == Some([a])
  {
    QuartetOf(a, 0, 0);
    LowZero(a);
    hide *;
    var s := Triple(a, 0, 0);
    var t := s[..2] + "==";
    assert t[0] == s[0] && t[1] == s[1] && t[2] == '=' && t[3] == '=';
    PaddedTwice(t, (a as int) / 4, 16 * ((a as int) % 4));
  }

  // n whole, unpadded quartets on one line that decode to the bytes.
  ghost predicate Reads(s: string, n: nat, bytes: seq<Byte>) {
    |s| == 4 * n && Decode(s) == Some(bytes) && '=' !in s && '\n' !in s
  }

  lemma ReadsSnoc(before: string, n: nat, bytes: seq<Byte>, last: string, more: seq<Byte>)
    requires Reads(before, n, bytes)
    requires |last| == 4 && DecodeQuartet(last) == Some(more) && '=' !in last && '\n' !in last
    ensures Reads(before + last, n + 1, bytes + more)
  {
    DecodeSnoc(before, last);
    hide Decode, DecodeQuartet;
  }

  lemma TripleReads(a: Byte, b: Byte, c: Byte, before: string, n: nat, bytes: seq<Byte>)
    requires Reads(before, n, bytes)
    ensures Reads(before + Triple(a, b, c), n + 1, bytes + [a, b, c])
  {
    ThreeBytesDecode(a, b, c);
    TripleIsPlain(a, b, c);
    hide Triple, DecodeQuartet, Reads;
    ReadsSnoc(before, n, bytes, Triple(a, b, c), [a, b, c]);
  }

  lemma {:induction false} WholeDecodes(data: seq<Byte>, groups: nat)
    requires 3 * groups <= |data|
    ensures Reads(Whole(data, groups), groups, data[..3 * groups])
  {
    hide Triple, Reads;
    if groups == 0 {
      NothingReads();
      assert data[..0] == [];
    } else {
      var i := 3 * groups - 3;
      WholeSnoc(data, groups);
      WholeDecodes(data, groups - 1);
      TripleReads(data[i], data[i + 1], data[i + 2], Whole(data, groups - 1), groups - 1, data[..i]);
      assert data[..3 * groups] == data[..i] + [data[i], data[i + 1], data[i + 2]];
    }
    hide Whole;
  }

  lemma WholeSnoc(data: seq<Byte>, groups: nat)
    requires 0 < 3 * groups <= |data|
    ensures var i := 3 * groups - 3;
            Whole(data, groups) == Whole(data, groups - 1) + Triple(data[i], data[i + 1], data[i + 2])
  {
    hide Triple;
  }

  lemma NothingReads()
    ensures Reads("", 0, [])
  {
  }

  lemma DecodeSnoc(before: string, last: string)
    requires |last| == 4 && '=' !in before && Decode(before).Some? && DecodeQuartet(last).Some?
    ensures Decode(before + last) == Some(Decode(before).value + DecodeQuartet(last).value)
  {
    hide DecodeQuartet;
    var s := before + last;
    assert s[..|s| - 4] == before && s[|s| - 4..] == last;
  }

  lemma TailDecodes(rest: seq<Byte>)
    requires 0 < |rest| < 3
    ensures |Tail(rest)| == 4 && DecodeQuartet(Tail(rest)) == Some(rest) && '\n' !in Tail(rest)
  {
    TripleIsPlain(rest[0], if |rest| > 1 then rest[1] else 0, 0);
    if |rest| == 1 {
      OneByteDecodes(rest[0]);
      assert rest == [rest[0]];
    } else {
      TwoBytesDecode(rest[0], rest[1]);
      assert rest == [rest[0], rest[1]];
    }
    hide Triple, DecodeQuartet;
  }

  lemma StartedGroups(n: nat, groups: nat, rest: nat)
    requires groups == n / 3 && rest == n - 3 * groups
    ensures rest < 3 && (n + 2) / 3 == groups + (if rest > 0 then 1 else 0)
  {
  }

  lemma EncodeSplits(data: seq<Byte>, groups: nat, rest: seq<Byte>)
    requires groups == |data| / 3 && rest == data[3 * groups..]
    ensures |rest| < 3 && (|data| + 2) / 3 == groups + (if rest != [] then 1 else 0)
    ensures data == data[..3 * groups] + rest && Encode(data) == Whole(data, groups) + Tail(rest)
  {
    StartedGroups(|data|, groups, |rest|);
    hide Whole, Tail;
  }

  lemma TailReads(before: string, n: nat, bytes: seq<Byte>, rest: seq<Byte>)
    requires Reads(before, n, bytes) && |rest| < 3
    ensures var s := before + Tail(rest);
            |s| == 4 * (n + if rest != [] then 1 else 0) && Decode(s) == Some(bytes + rest) && '\n' !in s
  {
    if rest == [] {
      assert before + Tail(rest) == before && bytes + rest == bytes;
    } else {
      TailDecodes(rest);
      hide Tail, DecodeQuartet;
      DecodeSnoc(before, Tail(rest));
      hide Decode;
    }
  }

  // Every byte string comes back, and the text is four characters per started group of three.
  lemma RoundTrip(data: seq<Byte>)
    ensures Decode(Encode(data)) == Some(data)
    ensures |Encode(data)| == 4 * ((|data| + 2) / 3) && '\n' !in Encode(data)
  {
    hide *;
    var groups := |data| / 3;
    var rest := data[3 * groups..];
    EncodeSplits(data, groups, rest);
    WholeDecodes(data, groups);
    TailReads(Whole(data, groups), groups, data[..3 * groups], rest);
  }

  // ---- The lines of a PEM body ----

  // The body cut every 64 characters, from the front.
  function Lines(body: string): seq<string> {
    if |body| == 0 then [] else if |body| <= LINE then [body] else [body[..LINE]] + Lines(body[LINE..])
  }

  function Joined(lines: seq<string>, end: string): string {
    if lines == [] then "" else lines[0] + end + Joined(lines[1..], end)
  }

  lemma {:induction false} JoinedSnoc(lines: seq<string>, line: string, end: string)
    ensures Joined(lines + [line], end) == Joined(lines, end) + (line + end)
  {
    if lines == [] {
      assert [line][1..] == [];
    } else {
      JoinedSnoc(lines[1..], line, end);
      assert (lines + [line])[1..] == lines[1..] + [line];
    }
  }

  // The loop prints the body line by line, each followed by a newline.
  method WriteBody(body: string) returns (out: string)
    ensures out == Joined(Lines(body), "\n")
  {
    hide Lines, Joined;
    out := "";
    var i := 0;
    ghost var done: seq<string>, left := [], body;
    NothingPrinted();
    assert [] + Lines(body) == Lines(body);
    while i < |body|
      invariant 0 <= i && left == (if i < |body| then body[i..] else "")
      invariant out == Joined(done, "\n") && done + Lines(left) == Lines(body)
    {
      var line := body[i..if i + LINE <= |body| then i + LINE else |body|];
      JoinedSnoc(done, line, "\n");
      LinesStep(left, line);
      out := out + (line + "\n");
      assert done + ([line] + Lines(left[|line|..])) == (done + [line]) + Lines(left[|line|..]);
      done, left := done + [line], left[|line|..];
      i := i + LINE;
    }
    assert done + [] == done;
  }

  lemma NothingPrinted()
    ensures Lines("") == [] && Joined([], "\n") == ""
  {
  }

  lemma LinesStep(left: string, line: string)
    requires left != "" && line == left[..if LINE <= |left| then LINE else |left|]
    ensures Lines(left) == [line] + Lines(left[|line|..])
  {
    assert LINE >= |left| ==> left[|line|..] == "" && line == left;
  }

  // All lines but the last are exactly 64 characters, the last 1 to 64, and together they are the body.
  lemma {:induction false} LinesAreFull(body: string)
    ensures var lines := Lines(body);
            && (forall i :: 0 <= i < |lines| - 1 ==> |lines[i]| == 64)
            && (lines != [] ==> 1 <= |lines[|lines| - 1]| <= 64)
            && Joined(lines, "") == body
  {
    if |body| > LINE {
      LinesAreFull(body[LINE..]);
      var lines := Lines(body);
      assert lines[1..] == Lines(body[LINE..]);
      assert body == body[..LINE] + "" + body[LINE..];
    } else if |body| > 0 {
      assert [body][1..] == [];
      assert body + "" + "" == body;
    }
  }

  // What a PEM reader keeps of a body: everything but the line ends.
  function Unwrap(text: string): string {
    if text == "" then ""
    else Unwrap(text[..|text| - 1]) + (if text[|text| - 1] == '\n' then "" else [text[|text| - 1]])
  }

  lemma UnwrapSnoc(text: string, c: char)
    ensures Unwrap(text + [c]) == Unwrap(text) + (if c == '\n' then "" else [c])
  {
    assert (text + [c])[..|text|] == text;
  }

  lemma {:induction false} UnwrapConcat(a: string, b: string)
    ensures Unwrap(a + b) == Unwrap(a) + Unwrap(b)
  {
    if b == "" {
      assert a + b == a;
    } else {
      var init, c := b[..|b| - 1], b[|b| - 1];
      UnwrapConcat(a, init);
      UnwrapSnoc(init, c);
      UnwrapSnoc(a + init, c);
      hide Unwrap;
      assert b == init + [c] && a + b == (a + init) + [c];
    }
  }

  lemma {:induction false} UnwrapPlain(text: string)
    requires '\n' !in text
    ensures Unwrap(text) == text
  {
    if text != "" {
      UnwrapPlain(text[..|text| - 1]);
    }
  }

  lemma {:induction false} UnwrapLines(lines: seq<string>)
    requires forall i :: 0 <= i < |lines| ==> '\n' !in lines[i]
    ensures Unwrap(Joined(lines, "\n")) == Joined(lines, "")
  {
    if lines != [] {
      UnwrapLines(lines[1..]);
      UnwrapPlain(lines[0]);
      UnwrapConcat(lines[0] + "\n", Joined(lines[1..], "\n"));
      UnwrapConcat(lines[0], "\n");
      assert Unwrap("\n") == "" by {
        assert "\n"[..0] == "";
      }
      assert lines[0] + "" == lines[0];
    }
  }

  lemma {:induction false} LinesOf(body: string, c: char)
    requires c !in body
    ensures forall i :: 0 <= i < |Lines(body)| ==> c !in Lines(body)[i]
  {
    if |body| > LINE {
      LinesOf(body[LINE..], c);
    }
  }

  // Printed as a PEM body and read back, a certificate is unchanged.
  lemma PemRoundTrip(data: seq<Byte>)
    ensures Decode(Unwrap(Joined(Lines(Encode(data)), "\n"))) == Some(data)
  {
    var body := Encode(data);
    RoundTrip(data);
    LinesOf(body, '\n');
    UnwrapLines(Lines(body));
    LinesAreFull(body);
  }
}
