/** Stream message ids: `millisecond-sequence` pairs, their text, and resuming a
    stored stream from one. */
module StreamIds {
  import opened Prelude

  datatype StreamId = StreamId(ms: int, seq': int)

  predicate Less(a: StreamId, b: StreamId) {
    a.ms < b.ms || (a.ms == b.ms && a.seq' < b.seq')
  }

  const NO_ID := StreamId(-1, -1)

  /** The id after `last` for a clock reading: never before, never the same. */
  function NextId(last: StreamId, clock: int): (id: StreamId)
    ensures Less(last, id)
    ensures id.ms == Max(clock, last.ms)
  {
    var ms := Max(clock, last.ms);
    if ms == last.ms then StreamId(ms, last.seq' + 1) else StreamId(ms, 0)
  }

  /** The next id is the least one that is later than the last, has a sequence number
      and is not before the clock. */
  lemma NextIdIsLeast(last: StreamId, clock: int, other: StreamId)
    requires last.seq' >= -1 && Less(last, other) && other.ms >= clock && other.seq' >= 0
    ensures !Less(other, NextId(last, clock))
  {
  }

  function IdText(id: StreamId): string {
    IntText(id.ms) + "-" + IntText(id.seq')
  }

  /** `_generate_ms_seq_id`: the process-wide last id, changed in place. */
  class Generator {
    var lastMs: int
    var lastSeq: int

    function Last(): StreamId
      reads this
    {
      StreamId(lastMs, lastSeq)
    }

    constructor ()
      ensures Last() == NO_ID
    {
      lastMs, lastSeq := -1, -1;
    }

    method Generate(clock: int) returns (text: string)
      modifies this
      ensures Last() == NextId(old(Last()), clock) && text == IdText(Last())
    {
      var ms := Max(clock, lastMs);
      if ms == lastMs {
        lastSeq := lastSeq + 1;
      } else {
        lastMs := ms;
        lastSeq := 0;
      }
      text := IntText(lastMs) + "-" + IntText(lastSeq);
    }
  }

  /** The ids generated for a series of clock readings. */
  function Generated(last: StreamId, clocks: seq<int>): (ids: seq<StreamId>)
    ensures |ids| == |clocks|
    decreases clocks
  {
    if clocks == [] then []
    else var id := NextId(last, clocks[0]); [id] + Generated(id, clocks[1..])
  }

  /** Whatever the clock does, ids strictly increase. */
  lemma {:induction false} IdsIncrease(last: StreamId, clocks: seq<int>, i: nat, j: nat)
    requires i < j < |clocks|
    ensures Less(last, Generated(last, clocks)[i])
    ensures Less(Generated(last, clocks)[i], Generated(last, clocks)[j])
    decreases clocks
  {
    var id := NextId(last, clocks[0]);
    if i > 0 {
      IdsIncrease(id, clocks[1..], i - 1, j - 1);
    } else if j == 1 {
    } else {
      IdsIncrease(id, clocks[1..], 0, j - 1);
    }
  }

  // ---------------------------------------------------------------- parsing

  predicate IsDigit(c: char) {
    '0' <= c <= '9'
  }

  function DigitValue(c: char): nat
    requires IsDigit(c)
  {
    c as int - '0' as int
  }

  function ParseNat(s: string): Option<nat> {
    if s == "" || !IsDigit(s[|s| - 1]) then None
    else if |s| == 1 then Some(DigitValue(s[0]))
    else
      var rest := ParseNat(s[..|s| - 1]);
      if rest.None? then None else Some(10 * rest.value + DigitValue(s[|s| - 1]))
  }

  function Signed(sign: int, n: Option<nat>): Option<int> {
    match n
    case None => None
    case Some(v) => var i: int := sign * v; Some(i)
  }

  /** `int(text)` on decimal text with an optional sign. */
  function ParseInt(s: string): Option<int> {
    if s != "" && s[0] == '-' then Signed(-1, ParseNat(s[1..]))
    else if s != "" && s[0] == '+' then Signed(1, ParseNat(s[1..]))
    else Signed(1, ParseNat(s))
  }

  /** The position of the first '-', or the length. */
  function Dash(s: string): (i: nat)
    ensures i <= |s|
    ensures forall j :: 0 <= j < i ==> s[j] != '-'
    ensures i < |s| ==> s[i] == '-'
  {
    if s == "" then 0 else if s[0] == '-' then 0 else 1 + Dash(s[1..])
  }

  /** `_parse_ms_seq_id`; `None` is the `ValueError`. */
  function ParseId(s: string): Option<StreamId> {
    var i := Dash(s);
    if i == |s| then None
    else
      var ms, seq' := ParseInt(s[..i]), ParseInt(s[i + 1..]);
      if ms.None? || seq'.None? then None else Some(StreamId(ms.value, seq'.value))
  }

  lemma DigitParses(d: nat)
    requires d < 10
    ensures IsDigit(Digit(d)) && DigitValue(Digit(d)) == d
  {
  }

  lemma {:induction false} NatTextParses(n: nat)
    ensures NatText(n) != "" && forall i :: 0 <= i < |NatText(n)| ==> IsDigit(NatText(n)[i])
    ensures ParseNat(NatText(n)) == Some(n)
  {
    hide Digit, DigitValue, IsDigit;
    DigitParses(n % 10);
    if n >= 10 {
      NatTextParses(n / 10);
      var s := NatText(n);
      assert s[..|s| - 1] == NatText(n / 10);
      assert n == 10 * (n / 10) + n % 10;
    } else {
      assert n % 10 == n;
    }
  }

  lemma IntTextParses(n: nat)
    ensures ParseInt(IntText(n)) == Some(n)
    ensures Dash(IntText(n)) == |IntText(n)|
  {
    hide ParseNat, NatText;
    NatTextParses(n);
    assert IsDigit(NatText(n)[0]);
    assert forall i :: 0 <= i < |NatText(n)| ==> NatText(n)[i] != '-';
  }

  lemma DashFirst(ms: string, rest: string)
    requires Dash(ms) == |ms|
    ensures Dash(ms + "-" + rest) == |ms|
  {
    var s := ms + "-" + rest;
    assert s[|ms|] == '-';
    assert forall j :: 0 <= j < |ms| ==> s[j] == ms[j];
  }

  /** An id parses back from its text exactly when its clock part is not
      negative. */
  lemma IdTextParses(id: StreamId)
    requires id.seq' >= 0
    ensures ParseId(IdText(id)) == Some(id) <==> id.ms >= 0
  {
    hide ParseInt, IntText, Dash;
    var s := IdText(id);
    if id.ms >= 0 {
      IntTextParses(id.ms);
      IntTextParses(id.seq');
      var ms, seq' := IntText(id.ms), IntText(id.seq');
      DashFirst(ms, seq');
      assert s[..|ms|] == ms && s[|ms| + 1..] == seq';
    } else {
      NegativeText(id.ms, s);
    }
  }

  lemma NegativeText(ms: int, s: string)
    requires ms < 0 && IntText(ms) <= s
    ensures Dash(s) == 0 && ParseInt(s[..0]).None?
  {
    assert s[0] == IntText(ms)[0] == '-';
  }

  // --------------------------------------------------------------- resuming

  datatype Message = Message(topic: string, data: seq<bv8>, id: Option<string>)

  /** What a resume yields, or the `ValueError` of a malformed cursor. */
  datatype Resumed = Yields(messages: seq<Message>) | BadCursor

  ghost function LaterThan(messages: seq<Message>, cursor: StreamId): seq<Message> {
    if messages == [] then []
    else
      var rest := LaterThan(messages[..|messages| - 1], cursor);
      var m := messages[|messages| - 1];
      if m.id.Some? && ParseId(m.id.value).Some? && Less(cursor, ParseId(m.id.value).value) then rest + [m] else rest
  }

  ghost function Resume(messages: seq<Message>, cursor: Option<string>): Resumed {
    if cursor.None? then Yields([])
    else if Dash(cursor.value) == |cursor.value| then
      var n := ParseInt(cursor.value);
      if n.None? then BadCursor
      else if n.value + 1 >= |messages| then Yields([]) else Yields(messages[Max(0, n.value + 1)..])
    else
      var id := ParseId(cursor.value);
      if id.None? then BadCursor else Yields(LaterThan(messages, id.value))
  }

  /** `restore_messages` on the stored messages of one run. */
  method RestoreMessages(messages: seq<Message>, cursor: Option<string>) returns (r: Resumed)
    ensures r == Resume(messages, cursor)
  {
    if cursor.None? { return Yields([]); }
    if Dash(cursor.value) == |cursor.value| {
      var n := ParseInt(cursor.value);
      if n.None? { return BadCursor; }
      if n.value + 1 >= |messages| { return Yields([]); }
      return Yields(messages[Max(0, n.value + 1)..]);
    }
    var id := ParseId(cursor.value);
    if id.None? { return BadCursor; }
    var out := [];
    for i := 0 to |messages|
      invariant out == LaterThan(messages[..i], id.value)
    {
      assert messages[..i + 1][..i] == messages[..i];
      if messages[i].id.Some? {
        var candidate := ParseId(messages[i].id.value);
        if candidate.Some? && Less(id.value, candidate.value) {
          out := out + [messages[i]];
        }
      }
    }
    assert messages[..|messages|] == messages;
    return Yields(out);
  }

  ghost function IdOf(m: Message): StreamId
    requires m.id.Some? && ParseId(m.id.value).Some?
  {
    ParseId(m.id.value).value
  }

  /** Stored messages carry increasing, readable ids, none after `last`. */
  ghost predicate Numbered(messages: seq<Message>, last: StreamId) {
    && (forall i :: 0 <= i < |messages| ==>
          messages[i].id.Some? && ParseId(messages[i].id.value).Some? && !Less(last, IdOf(messages[i])))
    && (forall i, j :: 0 <= i < j < |messages| ==> Less(IdOf(messages[i]), IdOf(messages[j])))
  }

  /** Whatever the cursor, stored id or not: what is yielded are exactly the messages
      whose ids are greater, and they are the last ones. */
  lemma {:induction false} LaterThanAnyCursor(messages: seq<Message>, last: StreamId, cursor: StreamId) returns (n: nat)
    requires Numbered(messages, last)
    ensures n <= |messages| && LaterThan(messages, cursor) == messages[n..]
    ensures forall i :: 0 <= i < |messages| ==> (i >= n <==> Less(cursor, IdOf(messages[i])))
    decreases |messages|
  {
    hide ParseId;
    if messages == [] {
      n := 0;
    } else {
      var front, m := messages[..|messages| - 1], messages[|messages| - 1];
      assert messages == front + [m];
      assert Numbered(front, last);
      n := LaterThanAnyCursor(front, last, cursor);
      if n < |front| {
        assert Less(cursor, IdOf(front[n])) && Less(IdOf(messages[n]), IdOf(m));
      } else if !Less(cursor, IdOf(m)) {
        n := n + 1;
      }
    }
  }

  /** The text of an id: milliseconds, a dash, the sequence number. */
  lemma IdTextForm()
    ensures IdText(StreamId(170, 4)) == "170-4"
  {
    assert NatText(17) == "17";
    assert NatText(170) == "170";
  }

  /** Main result: resuming from the id of stored message `i` yields exactly the
      messages after it, and so does the older index cursor `i`. */
  lemma ResumeIsExact(messages: seq<Message>, last: StreamId, i: nat)
    requires Numbered(messages, last) && i < |messages|
    ensures Resume(messages, messages[i].id) == Yields(messages[i + 1..])
    ensures Resume(messages, Some(NatText(i))) == Yields(messages[i + 1..])
  {
    hide ParseInt, ParseNat, LaterThan;
    var n := LaterThanAnyCursor(messages, last, IdOf(messages[i]));
    if i + 1 < |messages| { assert Less(IdOf(messages[i]), IdOf(messages[i + 1])); }
    assert n == i + 1;
    IntTextParses(i);
    assert Dash(messages[i].id.value) < |messages[i].id.value|;
  }

  lemma NumberedAppend(messages: seq<Message>, last: StreamId, clock: int, m: Message)
    requires Numbered(messages, last) && last.seq' >= -1 && Max(clock, last.ms) >= 0
    requires m.id == Some(IdText(NextId(last, clock)))
    ensures Numbered(messages + [m], NextId(last, clock))
  {
    IdTextParses(NextId(last, clock));
  }

  lemma NumberedLater(messages: seq<Message>, last: StreamId, later: StreamId)
    requires Numbered(messages, last) && !Less(later, last)
    ensures Numbered(messages, later)
  {
  }
}
