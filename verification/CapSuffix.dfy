/**
  The self-replacing cap suffix of a stat line, and the per-frame annotation of the level-up menu with its
  fast path.
 */
module CapSuffix {

  datatype Option<+T> = None | Some(value: T)

  // What is printed around the number. The condition is what makes a printed suffix recognisable.
  datatype Style = Style(open: string, close: string)
  {
    predicate Marks() {
      && open != "" && !IsDigit(open[0]) && open[0] !in open[1..] && open[0] !in close
      && '\n' !in open && '\n' !in close
    }
  }

  const BONEUP: Style := Style(" (", ")")
  const STATUS: Style := Style("/", "")
  const INTERACTIVE: int := 3

  predicate IsDigit(c: char) { '0' <= c <= '9' }

  predicate Numeric(s: string) { s != "" && forall i :: 0 <= i < |s| ==> IsDigit(s[i]) }

  // ---- Decimal printing ----

  function DigitOf(d: int): char
    requires 0 <= d < 10
  {
    ('0' as int + d) as char
  }

  function Decimal(n: nat): string {
    if n < 10 then [DigitOf(n)] else Decimal(n / 10) + [DigitOf(n % 10)]
  }

  function ToString(n: int): string { if n < 0 then "-" + Decimal(-n) else Decimal(n) }

  function Parse(s: string): nat {
    if s == "" then 0
    else
      var c := s[|s| - 1];
      10 * Parse(s[..|s| - 1]) + if IsDigit(c) then c as int - '0' as int else 0
  }

  // A printed number is a run of digits that reads back as itself.
  lemma {:induction false} DecimalReadsBack(n: nat)
    ensures Numeric(Decimal(n)) && Parse(Decimal(n)) == n
  {
    if n >= 10 {
      DecimalReadsBack(n / 10);
      var s := Decimal(n);
      assert s[..|s| - 1] == Decimal(n / 10);
    } else {
      var s := Decimal(n);
      assert s[..0] == "" && Parse(s[..0]) == 0;
    }
  }

  lemma ToStringNumeric(n: int)
    ensures Numeric(ToString(n)) <==> n >= 0
  {
    if n >= 0 {
      DecimalReadsBack(n);
    } else {
      assert !IsDigit(ToString(n)[0]);
    }
  }

  lemma ToStringInjective(n: int, m: int)
    requires ToString(n) == ToString(m)
    ensures n == m
  {
    ToStringNumeric(n);
    ToStringNumeric(m);
    if n >= 0 {
      DecimalReadsBack(n);
      DecimalReadsBack(m);
    } else {
      DecimalReadsBack(-n);
      DecimalReadsBack(-m);
      assert ToString(n)[1..] == Decimal(-n) && ToString(m)[1..] == Decimal(-m);
    }
  }

  lemma {:induction false} DecimalWidth(n: nat, width: nat, bound: nat)
    requires width > 0 && bound == Power10(width) && n < bound
    ensures |Decimal(n)| <= width
  {
    if n >= 10 {
      assert width > 1;
      DecimalWidth(n / 10, width - 1, Power10(width - 1));
    }
  }

  function Power10(k: nat): nat { if k == 0 then 1 else 10 * Power10(k - 1) }

  // The suffix of any 32-bit cap fits the sixteen-byte buffer it is formatted into, with its terminator.
  lemma WantFits(cap: int)
    requires 0 <= cap < 0x8000_0000
    ensures |Suffix(BONEUP, cap)| < 16
  {
    assert Power10(5) == 10_0000;
    assert Power10(10) == 100_0000_0000;
    DecimalWidth(cap, 10, Power10(10));
  }

  // ---- The two string searches ----

  // The end of the first line.
  function Eol(s: string): (k: nat)
    ensures k <= |s| && '\n' !in s[..k] && (k < |s| ==> s[k] == '\n')
  {
    if s == "" || s[0] == '\n' then 0
    else
      var k := 1 + Eol(s[1..]);
      assert s[..k] == [s[0]] + s[1..][..k - 1];
      k
  }

  lemma {:induction false} EolOf(head: string, tail: string)
    requires '\n' !in head && (tail == "" || tail[0] == '\n')
    ensures Eol(head + tail) == |head|
  {
    if head == "" {
      assert head + tail == tail;
    } else {
      EolOf(head[1..], tail);
      assert (head + tail)[1..] == head[1..] + tail;
    }
  }

  predicate MatchAt(s: string, pat: string, p: int) {
    0 <= p && p + |pat| <= |s| && s[p..p + |pat|] == pat
  }

  // The last place at or before k where the pattern occurs, -1 if none.
  function RFindFrom(s: string, pat: string, k: int): (p: int)
    requires -1 <= k
    ensures -1 <= p <= k && (p >= 0 ==> MatchAt(s, pat, p)) && forall q :: p < q <= k ==> !MatchAt(s, pat, q)
  {
    if k < 0 then -1 else if MatchAt(s, pat, k) then k else RFindFrom(s, pat, k - 1)
  }

  function RFind(s: string, pat: string): int { RFindFrom(s, pat, |s|) }

  predicate EndsWith(s: string, t: string) { |s| >= |t| && s[|s| - |t|..] == t }

  // ---- The suffix ----

  function Suffix(st: Style, n: int): string { st.open + ToString(n) + st.close }

  // The number between the last opening mark and the closing one, if that is all there is.
  function Between(head: string, st: Style): string {
    var p := RFind(head, st.open);
    var first, last := p + |st.open|, |head| - |st.close|;
    if EndsWith(head, st.close) && p >= 0 && first <= last then head[first..last] else ""
  }

  function Strip(head: string, st: Style): string {
    if Numeric(Between(head, st)) then head[..RFind(head, st.open)] else head
  }

  function WithSuffix(text: string, n: int, st: Style): string {
    var k := Eol(text);
    if k == 0 then text else Strip(text[..k], st) + Suffix(st, n) + text[k..]
  }

  // The digit check by position is the digit check of what lies between the marks.
  lemma NumericBetween(head: string, st: Style, numeric: bool)
    requires EndsWith(head, st.close) && RFind(head, st.open) >= 0
    requires var first, last := RFind(head, st.open) + |st.open|, |head| - |st.close|;
             numeric <==> first < last && forall j :: first <= j < last ==> IsDigit(head[j])
    ensures numeric <==> Numeric(Between(head, st))
  {
    var first, last := RFind(head, st.open) + |st.open|, |head| - |st.close|;
    if first <= last {
      var mid := head[first..last];
      assert forall j :: first <= j < last ==> head[j] == mid[j - first];
    }
  }

  // The first line is cut out, a bare number in the marks is checked digit by digit and dropped, and the
  // new one appended.
  method WithCapSuffix(text: string, cap: int, open: string, close: string) returns (out: string)
    ensures out == WithSuffix(text, cap, Style(open, close))
  {
    if text == "" {
      return text;
    }
    var st := Style(open, close);
    var eol := Eol(text);
    var head, tail := text[..eol], text[eol..];
    if head == "" {
      return text;
    }
    if EndsWith(head, close) {
      var at := RFind(head, open);
      if at >= 0 {
        var first, last := at + |open|, |head| - |close|;
        var numeric := last > first;
        var i := first;
        while i < last && numeric
          invariant first < last ==> first <= i <= last
          invariant numeric <==> first < last && forall j :: first <= j < i ==> IsDigit(head[j])
          decreases last - i
        {
          numeric := IsDigit(head[i]);
          i := i + 1;
        }
        NumericBetween(head, st, numeric);
        if numeric {
          head := head[..at];
        }
      }
    }
    out := head + open + ToString(cap) + close + tail;
    assert out == head + Suffix(st, cap) + tail;
  }

  // ---- What the suffix means ----

  lemma NoLaterMark(base: string, inner: string, st: Style, q: int)
    requires st.Marks() && st.open[0] !in inner && q > |base|
    ensures !MatchAt(base + st.open + inner + st.close, st.open, q)
  {
    var head := base + st.open + inner + st.close;
    if q + |st.open| <= |head| {
      if q < |base| + |st.open| {
        assert head[q] == st.open[1..][q - |base| - 1];
      } else if q < |base| + |st.open| + |inner| {
        assert head[q] == inner[q - |base| - |st.open|];
      } else {
        assert head[q] == st.close[q - |base| - |st.open| - |inner|];
      }
      assert head[q..q + |st.open|][0] == head[q];
    }
  }

  // The last opening mark of a marked line is the one the number follows.
  lemma OwnMarkIsLast(base: string, inner: string, st: Style)
    requires st.Marks() && st.open[0] !in inner
    ensures RFind(base + st.open + inner + st.close, st.open) == |base|
  {
    var head := base + st.open + inner + st.close;
    assert MatchAt(head, st.open, |base|);
    forall q | |base| < q <= |head| ensures !MatchAt(head, st.open, q) {
      NoLaterMark(base, inner, st, q);
    }
  }

  lemma BetweenOf(base: string, inner: string, st: Style)
    requires st.Marks() && st.open[0] !in inner
    ensures var head := base + st.open + inner + st.close;
            RFind(head, st.open) == |base| && Between(head, st) == inner && head[..|base|] == base
  {
    OwnMarkIsLast(base, inner, st);
    var head := base + st.open + inner + st.close;
    assert head[|head| - |st.close|..] == st.close;
    assert head[|base| + |st.open|..|head| - |st.close|] == inner;
  }

  // A line carrying a bare number in the marks loses exactly that.
  lemma StripsOwn(base: string, digits: string, st: Style)
    requires st.Marks() && Numeric(digits)
    ensures Strip(base + st.open + digits + st.close, st) == base
  {
    forall i | 0 <= i < |digits| ensures digits[i] != st.open[0] {
      assert IsDigit(digits[i]);
    }
    BetweenOf(base, digits, st);
  }

  // Anything else between the marks stays.
  lemma KeepsForeign(base: string, inner: string, st: Style)
    requires st.Marks() && st.open[0] !in inner && !Numeric(inner)
    ensures var head := base + st.open + inner + st.close; Strip(head, st) == head
  {
    BetweenOf(base, inner, st);
  }

  // Conversely, a line that was shortened carried a bare number in the marks.
  lemma StripOnlyOwn(head: string, st: Style)
    requires Strip(head, st) != head
    ensures Numeric(Between(head, st))
    ensures head == Strip(head, st) + st.open + Between(head, st) + st.close
  {
    var p := RFind(head, st.open);
    var first, last := p + |st.open|, |head| - |st.close|;
    assert head[p..first] == st.open && head[last..] == st.close;
    assert head == head[..p] + head[p..first] + head[first..last] + head[last..];
  }

  // The number of a negative cap starts with a minus sign, so it is not a bare number.
  lemma StripsPrinted(base: string, n: int, st: Style)
    requires st.Marks() && st.open[0] != '-'
    ensures Strip(base + Suffix(st, n), st) == if n >= 0 then base else base + Suffix(st, n)
  {
    var head := base + st.open + ToString(n) + st.close;
    assert base + Suffix(st, n) == head;
    ToStringNumeric(n);
    if n >= 0 {
      StripsOwn(base, ToString(n), st);
    } else {
      DecimalReadsBack(-n);
      assert st.open[0] !in ToString(n) by {
        assert ToString(n)[1..] == Decimal(-n);
        forall i | 0 <= i < |ToString(n)| ensures ToString(n)[i] != st.open[0] {
          if i > 0 {
            assert IsDigit(Decimal(-n)[i - 1]);
          }
        }
      }
      KeepsForeign(base, ToString(n), st);
    }
  }

  lemma SuffixIsOneLine(n: int, st: Style)
    requires st.Marks()
    ensures '\n' !in Suffix(st, n) && Suffix(st, n) != ""
  {
    var d := if n >= 0 then n else -n;
    DecimalReadsBack(d);
    forall i | 0 <= i < |ToString(n)| ensures ToString(n)[i] != '\n' {
      if n >= 0 {
        assert IsDigit(Decimal(d)[i]);
      } else if i > 0 {
        assert ToString(n)[i] == Decimal(d)[i - 1] && IsDigit(Decimal(d)[i - 1]);
      }
    }
  }

  lemma StripIsPrefix(head: string, st: Style)
    ensures Strip(head, st) <= head
  {
  }

  // Lines after the first are untouched, and the new first line is the old one with its number replaced.
  lemma OnlyTheTitleChanges(text: string, n: int, st: Style)
    requires st.Marks() && Eol(text) > 0
    ensures var k, r := Eol(text), WithSuffix(text, n, st);
            && r[..Eol(r)] == Strip(text[..k], st) + Suffix(st, n)
            && r[Eol(r)..] == text[k..]
  {
    var k := Eol(text);
    var title := Strip(text[..k], st) + Suffix(st, n);
    SuffixIsOneLine(n, st);
    StripIsPrefix(text[..k], st);
    assert '\n' !in title by {
      forall i | 0 <= i < |title| ensures title[i] != '\n' {
        if i < |Strip(text[..k], st)| {
          assert title[i] == text[..k][i];
        }
      }
    }
    EolOf(title, text[k..]);
  }

  // Applying the suffix twice is applying the last one: exactly when the first cap was not negative, or
  // there is no title to annotate.
  lemma AbsorbsIff(text: string, n: int, m: int, st: Style)
    requires st.Marks() && st.open[0] != '-'
    ensures WithSuffix(WithSuffix(text, n, st), m, st) == WithSuffix(text, m, st) <==> n >= 0 || Eol(text) == 0
  {
    var k := Eol(text);
    if k > 0 {
      OnlyTheTitleChanges(text, n, st);
      SuffixIsOneLine(n, st);
      var base := Strip(text[..k], st);
      var title := base + Suffix(st, n);
      StripsPrinted(base, n, st);
      var twice := WithSuffix(WithSuffix(text, n, st), m, st);
      assert twice == Strip(title, st) + Suffix(st, m) + text[k..];
      if n < 0 {
        assert |twice| > |WithSuffix(text, m, st)|;
      }
    }
  }

  lemma SuffixInfix(text: string, n: int, st: Style)
    requires Eol(text) > 0
    ensures WithSuffix(text, n, st)
         == (Strip(text[..Eol(text)], st) + st.open) + ToString(n) + (st.close + text[Eol(text)..])
  {
    hide Strip, Eol, ToString;
  }

  // The cap can be told from the text: a stale one is always replaced by a different text.
  lemma CapIsVisible(text: string, n: int, m: int, st: Style)
    requires Eol(text) > 0
    ensures WithSuffix(text, n, st) == WithSuffix(text, m, st) ==> n == m
  {
    SuffixInfix(text, n, st);
    SuffixInfix(text, m, st);
    hide *;
    if WithSuffix(text, n, st) == WithSuffix(text, m, st) {
      SameInfix(Strip(text[..Eol(text)], st) + st.open, ToString(n), ToString(m), st.close + text[Eol(text)..]);
      ToStringInjective(n, m);
    }
  }

  lemma SameInfix(a: string, x: string, y: string, b: string)
    requires a + x + b == a + y + b
    ensures x == y
  {
    assert (a + x + b)[|a|..|a| + |x|] == x;
    assert (a + y + b)[|a|..|a| + |y|] == y;
  }

  function AfterFrames(text: string, caps: seq<nat>, st: Style): string {
    if caps == [] then text else WithSuffix(AfterFrames(text, caps[..|caps| - 1], st), caps[|caps| - 1], st)
  }

  // However many frames ran and whatever the caps did in between, only the last cap shows.
  lemma {:induction false} LastCapWins(text: string, caps: seq<nat>, st: Style)
    requires st.Marks() && st.open[0] != '-' && caps != []
    ensures AfterFrames(text, caps, st) == WithSuffix(text, caps[|caps| - 1], st)
  {
    var before, last := caps[..|caps| - 1], caps[|caps| - 1];
    if before == [] {
      assert AfterFrames(text, before, st) == text;
    } else {
      LastCapWins(text, before, st);
      AbsorbsIff(text, before[|before| - 1], last, st);
    }
  }

  // ---- The two callers ----

  function Boneup(text: string, cap: int): string { WithSuffix(text, cap, BONEUP) }

  function Min(a: int, b: int): int { if a < b then a else b }

  function StatusPanel(text: string, cap: int): string { WithSuffix(text, Min(cap, 99), STATUS) }

  lemma CallersAbsorb(text: string, n: int, m: int)
    ensures Boneup(Boneup(text, n), m) == Boneup(text, m) <==> n >= 0 || Eol(text) == 0
    ensures StatusPanel(StatusPanel(text, n), m) == StatusPanel(text, m) <==> n >= 0 || Eol(text) == 0
  {
    AbsorbsIff(text, n, m, BONEUP);
    AbsorbsIff(text, Min(n, 99), Min(m, 99), STATUS);
  }

  // The panel shows at most a slash and two digits past the label, whatever the cap.
  lemma StatusPanelFits(text: string, cap: int)
    requires cap >= 0 && Eol(text) > 0
    ensures var r := StatusPanel(text, cap); Eol(r) <= Eol(text) + 3 && r[Eol(r)..] == text[Eol(text)..]
  {
    var shown := Min(cap, 99);
    OnlyTheTitleChanges(text, shown, STATUS);
    assert Power10(1) == 10;
    DecimalWidth(shown, 2, Power10(2));
    StripIsPrefix(text[..Eol(text)], STATUS);
  }

  // The fast path compares the end of the first line with the printed suffix; it skips exactly the titled
  // texts the slow function leaves alone.
  lemma SkipIffUnchanged(text: string, cap: int)
    requires cap >= 0
    ensures EndsWith(text[..Eol(text)], Suffix(BONEUP, cap)) <==> Eol(text) > 0 && Boneup(text, cap) == text
  {
    var k := Eol(text);
    var head, want := text[..k], Suffix(BONEUP, cap);
    assert text == head + text[k..];
    SuffixIsOneLine(cap, BONEUP);
    if EndsWith(head, want) {
      var base := head[..|head| - |want|];
      assert head == base + want;
      StripsPrinted(base, cap, BONEUP);
    } else if k > 0 {
      var title := Strip(head, BONEUP) + want;
      assert title[|title| - |want|..] == want;
      assert Boneup(text, cap) == title + text[k..];
      if |title| == |head| {
        assert (title + text[k..])[..k] == title;
      }
    }
  }

  // What either caller leaves ends its first line in the cap, the panel's clamped, and changes no other line.
  lemma CallersShowTheCap(text: string, cap: int)
    requires Eol(text) > 0
    ensures var r := Boneup(text, cap);
            EndsWith(r[..Eol(r)], " (" + ToString(cap) + ")") && r[Eol(r)..] == text[Eol(text)..]
    ensures var r := StatusPanel(text, cap);
            EndsWith(r[..Eol(r)], "/" + ToString(if cap < 99 then cap else 99)) && r[Eol(r)..] == text[Eol(text)..]
  {
    OnlyTheTitleChanges(text, cap, BONEUP);
    OnlyTheTitleChanges(text, Min(cap, 99), STATUS);
    EndsInAppended(Strip(text[..Eol(text)], BONEUP), Suffix(BONEUP, cap));
    EndsInAppended(Strip(text[..Eol(text)], STATUS), Suffix(STATUS, Min(cap, 99)));
  }

  lemma EndsInAppended(base: string, end: string)
    ensures EndsWith(base + end, end)
  {
  }

  // Exactly when a frame changes the description: the menu is interactive, a provider names a cap that is not
  // negative, and the description has a title that does not end in that cap yet. It then does, and the rest of
  // the description is as it was.
  lemma AnnotatesIff(text: Option<string>, state: int, stat: int, provider: Option<int -> int>)
    ensures var after := Annotated(text, state, stat, provider);
            && (after != text <==>
                  && provider.Some? && state == 3 && text.Some? && provider.value(stat) >= 0 && Eol(text.value) > 0
                  && !EndsWith(text.value[..Eol(text.value)], " (" + ToString(provider.value(stat)) + ")"))
            && (after != text ==>
                  && after.Some?
                  && EndsWith(after.value[..Eol(after.value)], " (" + ToString(provider.value(stat)) + ")")
                  && after.value[Eol(after.value)..] == text.value[Eol(text.value)..])
  {
    if provider.Some? && text.Some? && provider.value(stat) >= 0 {
      SkipIffUnchanged(text.value, provider.value(stat));
      if Eol(text.value) > 0 {
        CallersShowTheCap(text.value, provider.value(stat));
      }
    }
  }

  // The level-up menu: its state, the selected stat and the text of its description widget, if filled.
  class LevelUpMenu {
    var state: int
    var stat: int
    var text: Option<string>
    ghost var writes: nat

    // One frame, for a provider of display caps. The description becomes the slow function of itself, and
    // it is written to only when that changes it.
    method Annotate(provider: Option<int -> int>)
      modifies this`text, this`writes
      ensures text == Annotated(old(text), state, stat, provider)
      ensures writes == old(writes) + if text == old(text) then 0 else 1
    {
      if provider.None? {
        return;
      }
      if state != INTERACTIVE || text.None? || text.value == "" {
        return;
      }
      var current, cap := text.value, provider.value(stat);
      if cap < 0 {
        return;
      }
      var want := " (" + ToString(cap) + ")";
      assert want == Suffix(BONEUP, cap);
      var line1 := Eol(current);
      SkipIffUnchanged(current, cap);
      if line1 >= |want| && current[line1 - |want|..line1] == want {
        assert EndsWith(current[..line1], want);
        return;
      }
      var annotated := WithCapSuffix(current, cap, " (", ")");
      if annotated != current {
        text, writes := Some(annotated), writes + 1;
      }
    }
  }

  function Annotated(text: Option<string>, state: int, stat: int, provider: Option<int -> int>): Option<string> {
    if provider.Some? && state == INTERACTIVE && text.Some? && provider.value(stat) >= 0
    then Some(Boneup(text.value, provider.value(stat)))
    else text
  }
}
