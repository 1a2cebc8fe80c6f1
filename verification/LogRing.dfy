/** The log ring: a vector that fills up and is then overwritten from its oldest line on. */
module LogRing {

  function LastN(lines: seq<string>, n: nat): seq<string> {
    if |lines| <= n then lines else lines[|lines| - n..]
  }

  class Ring {
    const capacity: nat
    var lines: seq<string>
    var head: nat
    // History: everything pushed since the last clear.
    ghost var pushed: seq<string>

    ghost predicate Valid()
      reads this
    {
      && 0 < capacity && |lines| <= capacity
      && (if |lines| < capacity then head == 0 else head < |lines|)
      && lines[head..] + lines[..head] == LastN(pushed, capacity)
    }

    constructor (capacity: nat)
      ensures Valid() && pushed == [] && this.capacity == if capacity == 0 then 1 else capacity
    {
      this.capacity := if capacity == 0 then 1 else capacity;
      lines, head, pushed := [], 0, [];
    }

    method Push(line: string)
      requires Valid()
      modifies this
      ensures Valid() && pushed == old(pushed) + [line]
    {
      Appended(lines, head, pushed, line, capacity);
      pushed := pushed + [line];
      if |lines| < capacity {
        lines := lines + [line];
        return;
      }
      hide LastN;
      lines := lines[head := line];
      ModOnce(head + 1, |lines|);
      head := (head + 1) % |lines|;
    }

    method Clear()
      requires Valid()
      modifies this
      ensures Valid() && pushed == []
    {
      lines, head, pushed := [], 0, [];
    }

    // Oldest first, the last `capacity` lines pushed.
    method Snapshot() returns (out: seq<string>)
      requires Valid()
      ensures out == LastN(pushed, capacity)
    {
      out := [];
      ghost var all := lines[head..] + lines[..head];
      for i := 0 to |lines|
        invariant out == all[..i]
      {
        Wrapped(lines, head, i);
        out := out + [lines[(head + i) % |lines|]];
      }
    }
  }

  lemma ModOnce(x: nat, n: nat)
    requires 0 < n && x < 2 * n
    ensures x % n == if x < n then x else x - n
  {
    if x >= n {
      assert x == n * 1 + (x - n);
    }
  }

  lemma Wrapped(lines: seq<string>, head: nat, i: nat)
    requires i < |lines| && head < |lines|
    ensures lines[(head + i) % |lines|] == (lines[head..] + lines[..head])[i]
  {
    ModOnce(head + i, |lines|);
  }

  // What a push does to the ring's reading: append while there is room, overwrite the oldest line after.
  lemma Appended(lines: seq<string>, head: nat, pushed: seq<string>, line: string, capacity: nat)
    requires 0 < capacity && |lines| <= capacity && (if |lines| < capacity then head == 0 else head < |lines|)
    requires lines[head..] + lines[..head] == LastN(pushed, capacity)
    ensures |lines| < capacity ==>
              var after := lines + [line]; after[0..] + after[..0] == LastN(pushed + [line], capacity)
    ensures |lines| >= capacity ==>
              var after, next := lines[head := line], (head + 1) % |lines|;
              after[next..] + after[..next] == LastN(pushed + [line], capacity)
  {
    RingLength(lines, head, pushed, capacity);
    LastNSnoc(pushed, line, capacity);
    if |lines| < capacity {
      assert lines[head..] + lines[..head] == lines;
      var after := lines + [line];
      assert after[0..] + after[..0] == after;
    } else {
      Overwrite(lines, head, line);
    }
    hide LastN;
  }

  lemma RingLength(lines: seq<string>, head: nat, pushed: seq<string>, capacity: nat)
    requires head <= |lines| <= capacity && lines[head..] + lines[..head] == LastN(pushed, capacity)
    ensures |lines| < capacity <==> |pushed| < capacity
    ensures |lines| < capacity ==> LastN(pushed, capacity) == pushed
  {
    assert |lines[head..] + lines[..head]| == |lines|;
  }

  lemma LastNSnoc(lines: seq<string>, line: string, n: nat)
    requires n > 0
    ensures LastN(lines + [line], n) ==
            if |lines| < n then lines + [line] else LastN(lines, n)[1..] + [line]
  {
  }

  // Overwriting the oldest line and moving on drops it from the front and appends the new one.
  lemma Overwrite(lines: seq<string>, head: nat, line: string)
    requires head < |lines|
    ensures var after, next := lines[head := line], (head + 1) % |lines|;
            after[next..] + after[..next] == (lines[head..] + lines[..head])[1..] + [line]
  {
    var after := lines[head := line];
    ModOnce(head + 1, |lines|);
    if head + 1 == |lines| {
      assert (head + 1) % |lines| == 0;
      assert after == lines[..head] + [line];
      assert lines[head..] == [lines[head]];
    } else {
      assert (head + 1) % |lines| == head + 1;
      assert after[head + 1..] == lines[head + 1..] && after[..head + 1] == lines[..head] + [line];
    }
  }
}
