/**
  The saved login: two values in a line-per-record file. When what a reload produces is what was held.
 */
module LoginPrefs {

  datatype Prefs = Prefs(server: string, slot: string)

  const EMPTY := Prefs("", "")

  // The first place of a character, or the length.
  function IndexOf(s: string, c: char): (k: nat)
    ensures k <= |s| && c !in s[..k] && (k < |s| ==> s[k] == c)
  {
    if s == "" || s[0] == c then 0
    else
      var k := 1 + IndexOf(s[1..], c);
      assert s[..k] == [s[0]] + s[1..][..k - 1];
      k
  }

  // What getline reads, one after the other.
  function Lines(file: string): (lines: seq<string>)
    ensures forall i :: 0 <= i < |lines| ==> '\n' !in lines[i]
    decreases |file|
  {
    if file == "" then []
    else
      var k := IndexOf(file, '\n');
      [file[..k]] + Lines(if k < |file| then file[k + 1..] else "")
  }

  function Chomp(line: string): string {
    if line != "" && line[|line| - 1] == '\r' then line[..|line| - 1] else line
  }

  function ReadRecord(p: Prefs, raw: string): Prefs {
    var line := Chomp(raw);
    var space := IndexOf(line, ' ');
    if space == |line| || line[space + 1..] == "" then p
    else if line[..space] == "server" then p.(server := line[space + 1..])
    else if line[..space] == "slot" then p.(slot := line[space + 1..])
    else p
  }

  function ReadAll(p: Prefs, lines: seq<string>): Prefs {
    if lines == [] then p else ReadRecord(ReadAll(p, lines[..|lines| - 1]), lines[|lines| - 1])
  }

  function Loaded(file: string): Prefs { ReadAll(EMPTY, Lines(file)) }

  function Record(key: string, value: string): string {
    if value == "" then "" else key + " " + value + "\n"
  }

  function Saved(p: Prefs): string { Record("server", p.server) + Record("slot", p.slot) }

  // Up to the first line break of either kind.
  function OneLine(value: string): (r: string)
    ensures r <= value && '\n' !in r && '\r' !in r
    ensures r == value || value[|r|] == '\r' || value[|r|] == '\n'
  {
    if value == "" || value[0] == '\r' || value[0] == '\n' then "" else [value[0]] + OneLine(value[1..])
  }

  // What a record line can hold.
  predicate Holdable(value: string) {
    '\n' !in value && (value != "" ==> value[|value| - 1] != '\r')
  }

  function FirstOf(file: string): string { file[..IndexOf(file, '\n')] }

  function AfterFirst(file: string): string {
    var k := IndexOf(file, '\n');
    if k < |file| then file[k + 1..] else ""
  }

  lemma LinesStep(file: string)
    requires file != ""
    ensures Lines(file) == [FirstOf(file)] + Lines(AfterFirst(file)) && |AfterFirst(file)| < |file|
  {
  }

  lemma NothingRead(p: Prefs)
    ensures ReadAll(p, []) == p && Lines("") == []
  {
  }

  lemma ReadSnoc(p: Prefs, lines: seq<string>, line: string)
    ensures ReadAll(p, lines + [line]) == ReadRecord(ReadAll(p, lines), line)
  {
    assert (lines + [line])[..|lines|] == lines;
  }

  class LoginFile {
    var server: string
    var slot: string

    ghost function View(): Prefs
      reads this
    {
      Prefs(server, slot)
    }

    // `file` is the text on disk; a missing one reads as empty.
    constructor (file: string)
      ensures View() == Loaded(file)
    {
      server, slot := "", "";
      new;
      Load(file);
    }

    method Load(file: string)
      modifies this
      ensures View() == ReadAll(old(View()), Lines(file))
    {
      hide Lines, ReadAll, ReadRecord;
      var rest := file;
      ghost var done: seq<string> := [];
      assert done + Lines(file) == Lines(file);
      NothingRead(View());
      while rest != ""
        invariant done + Lines(rest) == Lines(file)
        invariant View() == ReadAll(old(View()), done)
        decreases |rest|
      {
        LinesStep(rest);
        ReadSnoc(old(View()), done, FirstOf(rest));
        var k := IndexOf(rest, '\n');
        var line := rest[..k];
        assert done + ([line] + Lines(AfterFirst(rest))) == (done + [line]) + Lines(AfterFirst(rest));
        rest, done := if k < |rest| then rest[k + 1..] else "", done + [line];
        Keep(line);
      }
      NothingRead(View());
      assert done + [] == done;
    }

    // One line of the loop: skipped without a key, a value, or a known key.
    method Keep(raw: string)
      modifies this
      ensures View() == ReadRecord(old(View()), raw)
    {
      var line := Chomp(raw);
      var space := IndexOf(line, ' ');
      if space == |line| {
        return;
      }
      var key, value := line[..space], line[space + 1..];
      if value == "" {
        return;
      }
      if key == "server" {
        server := value;
      } else if key == "slot" {
        slot := value;
      }
    }

    method Set(server: string, slot: string)
      modifies this
      ensures View() == Prefs(OneLine(server), OneLine(slot))
    {
      this.server := OneLine(server);
      this.slot := OneLine(slot);
    }

    method Save() returns (file: string)
      ensures file == Saved(View())
    {
      file := "";
      if server != "" {
        file := file + ("server " + server + "\n");
      }
      if slot != "" {
        file := file + ("slot " + slot + "\n");
      }
    }
  }

  lemma {:induction false} IndexOfIn(s: string, t: string, c: char)
    requires c !in s
    ensures IndexOf(s + [c] + t, c) == |s|
  {
    if s == "" {
      assert s + [c] + t == [c] + t;
    } else {
      IndexOfIn(s[1..], t, c);
      assert (s + [c] + t)[1..] == s[1..] + [c] + t;
    }
  }

  lemma FirstLine(line: string, rest: string)
    requires '\n' !in line
    ensures Lines(line + "\n" + rest) == [line] + Lines(rest)
  {
    var file := line + "\n" + rest;
    IndexOfIn(line, rest, '\n');
    assert file[..|line|] == line && file[|line| + 1..] == rest;
  }

  // A record of this key, read back.
  function Put(p: Prefs, key: string, value: string): Prefs {
    if value == "" then p else if key == "server" then p.(server := value) else p.(slot := value)
  }

  lemma RecordReads(p: Prefs, key: string, value: string)
    requires key == "server" || key == "slot"
    ensures value != "" ==> ReadRecord(p, key + " " + value) == Put(p, key, Chomp(value))
  {
    if value != "" {
      var raw := key + " " + value;
      var line := key + " " + Chomp(value);
      assert Chomp(raw) == line;
      IndexOfIn(key, Chomp(value), ' ');
      assert line[..|key|] == key && line[|key| + 1..] == Chomp(value);
    }
  }

  // A record on the last line wins over any before it, and leaves the other value as it was.
  lemma LastRecordWins(p: Prefs, lines: seq<string>, value: string)
    requires value != "" && value[|value| - 1] != '\r'
    ensures ReadAll(p, lines + ["server" + " " + value]) == ReadAll(p, lines).(server := value)
    ensures ReadAll(p, lines + ["slot" + " " + value]) == ReadAll(p, lines).(slot := value)
  {
    hide ReadAll, ReadRecord, Chomp;
    ReadSnoc(p, lines, "server" + " " + value);
    ReadSnoc(p, lines, "slot" + " " + value);
    RecordSets(ReadAll(p, lines), value);
  }

  lemma RecordSets(p: Prefs, value: string)
    requires value != "" && value[|value| - 1] != '\r'
    ensures ReadRecord(p, "server" + " " + value) == p.(server := value)
    ensures ReadRecord(p, "slot" + " " + value) == p.(slot := value)
  {
    hide ReadRecord;
    RecordReads(p, "server", value);
    RecordReads(p, "slot", value);
  }

  function RecordLines(key: string, value: string): seq<string> {
    if value == "" then [] else [key + " " + value]
  }

  lemma RecordIsOneLine(key: string, value: string, rest: string)
    requires '\n' !in key && '\n' !in value
    ensures Lines(Record(key, value) + rest) == RecordLines(key, value) + Lines(rest)
  {
    if value == "" {
      assert Record(key, value) + rest == rest;
    } else {
      FirstLine(key + " " + value, rest);
    }
  }

  // What the two saved records load as, when neither value breaks its line.
  lemma SavedLoads(p: Prefs)
    requires '\n' !in p.server && '\n' !in p.slot
    ensures Loaded(Saved(p)) == Put(Put(EMPTY, "server", Chomp(p.server)), "slot", Chomp(p.slot))
  {
    var a, b := RecordLines("server", p.server), RecordLines("slot", p.slot);
    RecordIsOneLine("server", p.server, Record("slot", p.slot));
    RecordIsOneLine("slot", p.slot, "");
    assert Record("slot", p.slot) + "" == Record("slot", p.slot) && b + [] == b;
    ReadTwo(a, b);
    RecordReads(EMPTY, "server", p.server);
    RecordReads(Put(EMPTY, "server", Chomp(p.server)), "slot", p.slot);
    hide Lines, Record, ReadRecord, ReadAll, Put;
  }

  lemma ReadTwo(a: seq<string>, b: seq<string>)
    requires |a| <= 1 && |b| <= 1
    ensures ReadAll(EMPTY, a + b) == var p := if a == [] then EMPTY else ReadRecord(EMPTY, a[0]);
                                     if b == [] then p else ReadRecord(p, b[0])
  {
    hide ReadRecord;
    if b == [] {
      assert a + b == a;
    } else {
      assert (a + b)[..|a|] == a && (a + b)[|a|] == b[0];
    }
    assert a != [] ==> a[..0] == [] && ReadAll(EMPTY, a) == ReadRecord(EMPTY, a[0]);
  }

  // Nothing read from a file has a line break in it.
  lemma {:induction false} LoadedIsOneLine(p: Prefs, lines: seq<string>)
    requires '\n' !in p.server && '\n' !in p.slot && forall i :: 0 <= i < |lines| ==> '\n' !in lines[i]
    ensures '\n' !in ReadAll(p, lines).server && '\n' !in ReadAll(p, lines).slot
  {
    if lines != [] {
      LoadedIsOneLine(p, lines[..|lines| - 1]);
    }
  }

  // A reload gives back what was saved exactly when each value fits its line.
  lemma RoundTripIff(p: Prefs)
    ensures Loaded(Saved(p)) == p <==> Holdable(p.server) && Holdable(p.slot)
  {
    LoadedIsOneLine(EMPTY, Lines(Saved(p)));
    if '\n' !in p.server && '\n' !in p.slot {
      SavedLoads(p);
    }
  }

  // So whatever is set comes back, and no value can forge another record.
  lemma SetRoundTrips(server: string, slot: string)
    ensures var p := Prefs(OneLine(server), OneLine(slot)); Loaded(Saved(p)) == p
  {
    RoundTripIff(Prefs(OneLine(server), OneLine(slot)));
  }

  // What was read from a file survives the next save unless the file ended a value in two carriage returns.
  lemma ReloadStableIff(file: string)
    ensures var p := Loaded(file);
            Loaded(Saved(p)) == p <==> !EndsInCr(p.server) && !EndsInCr(p.slot)
  {
    LoadedIsOneLine(EMPTY, Lines(file));
    RoundTripIff(Loaded(file));
  }

  // Such a file exists: its slot loads with a carriage return, saves, and loads without it.
  lemma TwoReturns()
    ensures var p := Loaded("slot a\r\r\n"); EndsInCr(p.slot) && Loaded(Saved(p)) != p
  {
    var value := "a\r\r";
    SlotLoads(value);
    assert Chomp(value) == "a\r" && EndsInCr("a\r");
    assert Record("slot", value) == "slot a\r\r\n";
    hide Loaded, Saved, Record;
    ReloadStableIff("slot a\r\r\n");
  }

  lemma SlotLoads(value: string)
    requires '\n' !in value && Chomp(value) != ""
    ensures Loaded(Record("slot", value)).slot == Chomp(value)
  {
    hide Lines, ReadRecord, ReadAll;
    RecordIsOneLine("slot", value, "");
    assert Record("slot", value) + "" == Record("slot", value);
    NothingRead(EMPTY);
    ReadTwo([], RecordLines("slot", value));
    assert [] + RecordLines("slot", value) == RecordLines("slot", value) == RecordLines("slot", value) + [];
    RecordReads(EMPTY, "slot", value);
  }

  predicate EndsInCr(value: string) { value != "" && value[|value| - 1] == '\r' }
}
