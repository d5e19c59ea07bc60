/** RESP streams in which frames of an unknown command stand among well-formed ones. The parser
    drops such a frame line by line, so whether later frames are understood depends on where a
    read ends: exactly when, is proved here. */
module MixedStream {
  import opened Bytes
  import opened Domain
  import opened InlineParser
  import opened InlineRefinement
  import opened RespParser
  import opened Session
  import opened InlineSession

  // ---- junk lines ------------------------------------------------------------------

  /** A line without an end inside whose first word is no command. */
  predicate Unknown(t: Bytes) {
    NoEnds(t) && Words(t) != [] && VerbOf(Words(t)[0]).VUnknown?
  }

  /** One that does not look like an array either. */
  predicate Junk(t: Bytes) {
    t != [] && IsText(t) && Unknown(t)
  }

  predicate AllJunk(ts: seq<Bytes>) {
    forall i :: 0 <= i < |ts| ==> Junk(ts[i])
  }

  /** A mark and a number, as in array and bulk headers, is no command. */
  lemma MarkedNumber(mark: byte, n: nat)
    requires mark == STAR || mark == DOLLAR
    ensures Unknown([mark] + Itoa(n)) && (mark == DOLLAR ==> Junk([mark] + Itoa(n)))
  {
    var t := [mark] + Itoa(n);
    hide Itoa;
    assert forall i :: 0 <= i < |Itoa(n)| ==> IsDigit(Itoa(n)[i]);
    assert forall i :: 0 <= i < |t| ==> !IsSpace(t[i]);
    WordsOfWord(t);
    hide Words, VerbOf;
    if !VerbOf(t).VUnknown? {
      KnownLooks(t);
    }
  }

  lemma UnknownLine(t: Bytes)
    requires Unknown(t)
    ensures LineCommand(Words(t)) == Err(UnknownCommand(Words(t)[0]))
    ensures LineCommand(Words(t + [CR])) == Err(UnknownCommand(Words(t)[0]))
    ensures BorrowedCommand(Words(t)) == Err(UnknownCommand(Words(t)[0]))
  {
    WordsSnocSpace(t, CR);
    hide VerbOf, Words;
  }

  /** The inline loop answers an unknown line with one error. */
  lemma InlineJunk(t: Bytes, z: Bytes)
    requires Unknown(t)
    ensures
      var d := DrainInline(z);
      DrainInline(t + CRLF + z) == Drained([BadCommand] + d.events, d.rest, d.panicked)
  {
    hide DrainInline, Words, VerbOf, BorrowedCommand;
    UnknownLine(t);
    DrainLine(t, z);
  }

  /** So does the RESP loop, which reads it with the simple parser. */
  lemma RespJunk(t: Bytes, z: Bytes)
    requires Junk(t)
    ensures
      var d := Drain(z);
      Drain(t + CRLF + z) == Drained([BadCommand] + d.events, d.rest, d.panicked)
  {
    hide Words, VerbOf, LineCommand, Drain, DrainInline;
    var buf := t + CRLF + z;
    UnknownLine(t);
    LineBreakAt(t, z);
    assert buf[0] == t[0] && buf[..|t| + 1] == t + [CR] && buf[|t| + 2..] == z;
    assert ParseFrame(buf) == Failed(UnknownCommand(Words(t)[0]));
    hide ParseFrame;
    assert AfterLine(buf) == z;
    ErrorRecovery(buf);
  }

  lemma RespPart(t: Bytes, part: Bytes)
    requires Junk(t) && part < t + CRLF
    ensures Drain(part) == Drained([], part, false)
  {
    hide Words, VerbOf;
    assert forall i :: 0 <= i < |part| ==> part[i] == (t + CRLF)[i];
    assert LF !in part;
    if part != [] {
      assert part[0] == t[0];
    }
    assert ParseFrame(part) == Incomplete;
  }

  // ---- frames of an unknown command ------------------------------------------------------

  /** A frame whose items are all unknown as lines. */
  predicate BadFrame(args: seq<Bytes>) {
    1 <= |args| <= 1024 && Sized(args) && AllJunk(args) && VerbOf(args[0]).VUnknown?
  }

  /** Its lines behind the array header. */
  function ItemLines(args: seq<Bytes>): seq<Bytes> {
    if args == [] then [] else [[DOLLAR] + Itoa(|args[0]|), args[0]] + ItemLines(args[1..])
  }

  lemma {:induction false} ItemLinesJunk(args: seq<Bytes>)
    requires AllJunk(args)
    ensures AllJunk(ItemLines(args)) && |ItemLines(args)| == 2 * |args|
    decreases |args|
  {
    hide Junk, Itoa;
    if args != [] {
      assert Junk(args[0]);
      MarkedNumber(DOLLAR, |args[0]|);
      ItemLinesJunk(args[1..]);
    }
  }

  /** A frame is its header line and its item lines. */
  lemma {:induction false} FrameLines(args: seq<Bytes>)
    ensures BulkAll(args) == Lines(ItemLines(args))
    decreases |args|
  {
    hide Itoa;
    if args != [] {
      FrameLines(args[1..]);
      var n, a, rest := [DOLLAR] + Itoa(|args[0]|), args[0], ItemLines(args[1..]);
      var all := ItemLines(args);
      assert all[1..] == [a] + rest && all[1..][1..] == rest;
      assert Lines(all) == (n + CRLF) + ((a + CRLF) + Lines(rest));
      assert Bulk(a) + Lines(rest) == (n + CRLF) + ((a + CRLF) + Lines(rest));
    }
  }

  /** The header line's text. */
  function HeadText(args: seq<Bytes>): Bytes {
    [STAR] + Itoa(|args|)
  }

  lemma FrameSplits(args: seq<Bytes>)
    ensures RespFrame(args) == (HeadText(args) + CRLF) + Lines(ItemLines(args))
  {
    hide Itoa, Lines, ItemLines, BulkAll;
    FrameLines(args);
  }

  /** Header and verb decide the verdict, whatever follows. */
  lemma BadVerdict(args: seq<Bytes>, z: Bytes)
    requires BadFrame(args)
    ensures ParseFrame((HeadText(args) + CRLF) + Bulk(args[0]) + z) == Failed(UnknownCommand(args[0]))
  {
    hide ReadLineInt, ReadBulk, Itoa, VerbOf, AllJunk;
    var h := HeadText(args) + CRLF;
    assert h == Header(STAR, |args|);
    var buf := h + Bulk(args[0]) + z;
    LineIntEncoded([], STAR, |args|, Bulk(args[0]) + z);
    assert buf == [] + h + (Bulk(args[0]) + z);
    BulkEncoded(h, args[0], z);
    assert buf[0] == STAR;
  }

  /** Less than header and verb is not enough. */
  lemma BadWaits(args: seq<Bytes>, part: Bytes)
    requires BadFrame(args) && part < (HeadText(args) + CRLF) + Bulk(args[0])
    ensures ParseFrame(part) == Incomplete
  {
    hide ReadLineInt, ReadBulk, Itoa, VerbOf, AllJunk, ParseFrame;
    var whole := (HeadText(args) + CRLF) + Bulk(args[0]);
    BadVerdict(args, []);
    assert whole + [] == whole;
    if ParseFrame(part) != Incomplete {
      FrameStable(part, whole);
      NeedsVerb(args, part);
    }
  }

  /** A verdict of an unknown command has read its verb to the end. */
  lemma NeedsVerb(args: seq<Bytes>, part: Bytes)
    requires BadFrame(args) && part < (HeadText(args) + CRLF) + Bulk(args[0])
    ensures !(ParseFrame(part).Failed? && ParseFrame(part).error.UnknownCommand?)
  {
    hide Itoa, VerbOf, AllJunk, ReadLineInt;
    var h, b := HeadText(args) + CRLF, Bulk(args[0]);
    var whole := h + b;
    assert h == Header(STAR, |args|);
    LineIntEncoded([], STAR, |args|, b);
    assert [] + h + b == whole;
    BulkEncoded(h, args[0], []);
    assert h + b + [] == whole;
    if part != [] {
      assert part[0] == whole[0] == STAR;
      var r := ReadLineInt(part, 0, STAR);
      if r.Got? {
        LineIntStable(part, whole, 0, STAR);
        if ReadBulk(part, r.next).Got? {
          BulkStable(part, whole, r.next);
        }
      }
    }
  }

  // ---- streams of units --------------------------------------------------------------------

  datatype Unit = Good(args: seq<Bytes>) | Bad(args: seq<Bytes>)

  predicate IsUnit(u: Unit) {
    match u
    case Good(args) => WellFormed(args)
    case Bad(args) => BadFrame(args)
  }

  predicate AllUnits(us: seq<Unit>) {
    forall i :: 0 <= i < |us| ==> IsUnit(us[i])
  }

  function Errors(n: nat): (r: seq<Event>)
    ensures |r| == n && forall i :: 0 <= i < n ==> r[i] == BadCommand
  {
    seq(n, _ => BadCommand)
  }

  /** A well-formed frame is run; a bad one gets one error for each of its lines. */
  function UnitEvents(u: Unit): seq<Event>
    requires IsUnit(u)
  {
    match u
    case Good(args) => [Run(CommandOf(args).value)]
    case Bad(args) => Errors(1 + 2 * |args|)
  }

  /** What is still to come: junk lines of a frame that is being dropped, then units. */
  function ToCome(ts: seq<Bytes>, us: seq<Unit>): Bytes {
    Lines(ts) + UnitBytes(us)
  }

  function UnitBytes(us: seq<Unit>): Bytes {
    if us == [] then [] else RespFrame(us[0].args) + UnitBytes(us[1..])
  }

  function Events(ts: seq<Bytes>, us: seq<Unit>): seq<Event>
    requires AllUnits(us)
  {
    Errors(|ts|) + AllUnitEvents(us)
  }

  function AllUnitEvents(us: seq<Unit>): seq<Event>
    requires AllUnits(us)
  {
    if us == [] then [] else UnitEvents(us[0]) + AllUnitEvents(us[1..])
  }

  // ---- one step of either loop ----------------------------------------------------------

  /** What a step makes of what is to come: one junk line less, one unit less, or a frame whose
      header is gone. */
  function NextLines(ts: seq<Bytes>, us: seq<Unit>, inline: bool): seq<Bytes>
    requires ts != [] || us != []
  {
    if ts != [] then ts[1..]
    else if us[0].Bad? && (inline || |us[0].args| > 1) then ItemLines(us[0].args)
    else []
  }

  function NextUnits(ts: seq<Bytes>, us: seq<Unit>): seq<Unit>
    requires ts != [] || us != []
  {
    if ts != [] then us else us[1..]
  }

  /** The bytes that the step takes and the events it yields. */
  function Taken(ts: seq<Bytes>, us: seq<Unit>, inline: bool): Bytes
    requires ts != [] || us != []
  {
    if ts != [] then ts[0] + CRLF
    else if us[0].Bad? && (inline || |us[0].args| > 1) then HeadText(us[0].args) + CRLF
    else RespFrame(us[0].args)
  }

  function Yielded(ts: seq<Bytes>, us: seq<Unit>, inline: bool): seq<Event>
    requires (ts != [] || us != []) && AllUnits(us)
  {
    if ts != [] then Errors(1)
    else if us[0].Bad? && (inline || |us[0].args| > 1) then Errors(1)
    else UnitEvents(us[0])
  }

  /** Steps add up: bytes and events before are those of the step and those after. */
  lemma StepAddsUp(ts: seq<Bytes>, us: seq<Unit>, inline: bool)
    requires (ts != [] || us != []) && AllUnits(us) && AllJunk(ts)
    ensures AllUnits(NextUnits(ts, us)) && AllJunk(NextLines(ts, us, inline))
    ensures ToCome(ts, us) == Taken(ts, us, inline) + ToCome(NextLines(ts, us, inline), NextUnits(ts, us))
    ensures Events(ts, us) == Yielded(ts, us, inline) + Events(NextLines(ts, us, inline), NextUnits(ts, us))
    ensures |Taken(ts, us, inline)| > 0
  {
    hide Junk, WellFormed, HeadText, RespFrame, ItemLines, CommandOf, BadFrame;
    if ts != [] {
      LineAddsUp(ts, us);
    } else {
      UnitAddsUp(us, inline);
    }
  }

  lemma LineAddsUp(ts: seq<Bytes>, us: seq<Unit>)
    requires ts != [] && AllUnits(us)
    ensures ToCome(ts, us) == (ts[0] + CRLF) + ToCome(ts[1..], us)
    ensures Events(ts, us) == Errors(1) + Events(ts[1..], us)
  {
    hide UnitBytes, AllUnitEvents, IsUnit;
    assert ((ts[0] + CRLF) + Lines(ts[1..])) + UnitBytes(us) == (ts[0] + CRLF) + (Lines(ts[1..]) + UnitBytes(us));
    assert Errors(|ts|) == Errors(1) + Errors(|ts| - 1);
    assert (Errors(1) + Errors(|ts| - 1)) + AllUnitEvents(us) == Errors(1) + (Errors(|ts| - 1) + AllUnitEvents(us));
  }

  lemma UnitAddsUp(us: seq<Unit>, inline: bool)
    requires us != [] && AllUnits(us)
    ensures AllJunk(NextLines([], us, inline)) && |Taken([], us, inline)| > 0
    ensures ToCome([], us) == Taken([], us, inline) + ToCome(NextLines([], us, inline), us[1..])
    ensures Events([], us) == Yielded([], us, inline) + Events(NextLines([], us, inline), us[1..])
  {
    hide Junk, WellFormed, ItemLines, CommandOf, HeadText, RespFrame, Lines, UnitBytes, AllUnitEvents, BadFrame, Errors;
    assert IsUnit(us[0]);
    var u, rest := us[0], us[1..];
    UnitsUnfold(us);
    NothingBefore(us);
    if u.Bad? && (inline || |u.args| > 1) {
      BadAddsUp(u.args, rest);
    } else {
      NothingBefore(rest);
      assert |RespFrame(u.args)| > 0 by { FrameSplits(u.args); }
    }
  }

  lemma UnitsUnfold(us: seq<Unit>)
    requires us != [] && AllUnits(us)
    ensures UnitBytes(us) == RespFrame(us[0].args) + UnitBytes(us[1..])
    ensures AllUnits(us[1..]) && IsUnit(us[0]) && AllUnitEvents(us) == UnitEvents(us[0]) + AllUnitEvents(us[1..])
  {
    hide RespFrame, IsUnit;
  }

  lemma NothingBefore(us: seq<Unit>)
    requires AllUnits(us)
    ensures ToCome([], us) == UnitBytes(us) && Events([], us) == AllUnitEvents(us)
  {
    hide UnitBytes, AllUnitEvents, IsUnit;
    NoLines();
    assert [] + UnitBytes(us) == UnitBytes(us);
    assert Errors(0) == [] && [] + AllUnitEvents(us) == AllUnitEvents(us);
  }

  lemma BadAddsUp(args: seq<Bytes>, rest: seq<Unit>)
    requires BadFrame(args) && AllUnits(rest)
    ensures AllJunk(ItemLines(args)) && |HeadText(args) + CRLF| > 0
    ensures RespFrame(args) + UnitBytes(rest) == (HeadText(args) + CRLF) + ToCome(ItemLines(args), rest)
    ensures Errors(1 + 2 * |args|) + AllUnitEvents(rest) == Errors(1) + Events(ItemLines(args), rest)
  {
    hide Junk, ItemLines, HeadText, RespFrame, Lines, UnitBytes, AllUnitEvents, IsUnit;
    ItemLinesJunk(args);
    FrameSplits(args);
    var h, items, ub, ue := HeadText(args) + CRLF, Lines(ItemLines(args)), UnitBytes(rest), AllUnitEvents(rest);
    assert (h + items) + ub == h + (items + ub);
    ErrorsSplit(2 * |args|, ue);
  }

  lemma ErrorsSplit(n: nat, rest: seq<Event>)
    ensures Errors(1 + n) + rest == Errors(1) + (Errors(n) + rest)
  {
  }

  lemma NoLines()
    ensures Lines([]) == []
  {
  }

  // ---- the RESP loop on what is to come ---------------------------------------------------

  /** How many bytes the RESP loop needs before it takes the next step. */
  function Needed(ts: seq<Bytes>, us: seq<Unit>): Bytes
    requires (ts != [] || us != []) && AllUnits(us)
  {
    if ts != [] then ts[0] + CRLF
    else assert IsUnit(us[0]); if us[0].Bad? then (HeadText(us[0].args) + CRLF) + Bulk(us[0].args[0])
    else RespFrame(us[0].args)
  }

  lemma RespWaits(ts: seq<Bytes>, us: seq<Unit>, part: Bytes)
    requires (ts != [] || us != []) && AllUnits(us) && AllJunk(ts) && part < Needed(ts, us)
    ensures Drain(part) == Drained([], part, false)
  {
    hide Junk, RespFrame, WellFormed, BadFrame, ParseFrame;
    if ts != [] {
      RespPart(ts[0], part);
    } else {
      assert IsUnit(us[0]);
      if us[0].Bad? {
        BadWaits(us[0].args, part);
      } else {
        DrainPartial(us[0].args, part);
      }
    }
  }

  /** With that much the loop takes the step, and goes on with what is behind it. */
  lemma RespSteps(ts: seq<Bytes>, us: seq<Unit>, z: Bytes)
    requires (ts != [] || us != []) && AllUnits(us) && AllJunk(ts)
    requires Needed(ts, us) <= Taken(ts, us, false) + z
    ensures
      var d := Drain(z);
      Drain(Taken(ts, us, false) + z) == Drained(Yielded(ts, us, false) + d.events, d.rest, d.panicked)
  {
    assert ts == [] ==> IsUnit(us[0]) && (us[0].Bad? ==> |us[0].args| >= 1);
    hide Junk, RespFrame, WellFormed, BadFrame, ParseFrame, Drain, HeadText;
    assert Errors(1) == [BadCommand];
    if ts != [] {
      RespJunk(ts[0], z);
    } else {
      assert IsUnit(us[0]);
      if us[0].Good? {
        DrainHead(us[0].args, z);
      } else if |us[0].args| > 1 {
        BadHeader(us[0].args, z);
      } else {
        BadWhole(us[0].args, z);
      }
    }
  }

  /** A bad frame loses its header. */
  lemma BadHeader(args: seq<Bytes>, z: Bytes)
    requires BadFrame(args) && (HeadText(args) + CRLF) + Bulk(args[0]) <= (HeadText(args) + CRLF) + z
    ensures
      var d := Drain(z);
      Drain((HeadText(args) + CRLF) + z) == Drained([BadCommand] + d.events, d.rest, d.panicked)
  {
    assert |args| >= 1;
    hide BadFrame, ParseFrame, Drain, Bulk, HeadText;
    var h := HeadText(args) + CRLF;
    var buf, front := h + z, h + Bulk(args[0]);
    var rest := buf[|front|..];
    assert buf == front + rest;
    BadVerdict(args, rest);
    HeadIsLine(args, z);
    ErrorRecovery(buf);
  }

  lemma HeadIsLine(args: seq<Bytes>, z: Bytes)
    ensures AfterLine((HeadText(args) + CRLF) + z) == z && NoEnds(HeadText(args))
  {
    var t := HeadText(args);
    MarkedNumber(STAR, |args|);
    hide Itoa, HeadText;
    LineBreakAt(t, z);
    var buf := (t + CRLF) + z;
    assert buf[|t| + 1] == LF && buf[|t| + 2..] == z;
  }

  /** Header and verb of a bad frame cost three errors. */
  lemma VerbDrops(args: seq<Bytes>, z: Bytes)
    requires BadFrame(args)
    ensures
      var d := Drain(z);
      Drain((HeadText(args) + CRLF) + (Bulk(args[0]) + z)) == Drained(Errors(3) + d.events, d.rest, d.panicked)
  {
    hide ParseFrame, Drain, HeadText, Junk, Itoa, VerbOf, Bulk;
    var n, v := [DOLLAR] + Itoa(|args[0]|), args[0];
    assert Junk(v);
    MarkedNumber(DOLLAR, |v|);
    BulkIs(v);
    FrontOf(HeadText(args) + CRLF, Bulk(v), z);
    BadHeader(args, Bulk(v) + z);
    BulkThen(v, z);
    RespJunk(n, v + CRLF + z);
    RespJunk(v, z);
    ThreeErrors(Drain(z).events);
  }

  lemma FrontOf(h: Bytes, b: Bytes, z: Bytes)
    ensures h + b <= h + (b + z)
  {
    assert h + (b + z) == (h + b) + z;
  }

  lemma BulkThen(v: Bytes, z: Bytes)
    ensures Bulk(v) + z == ([DOLLAR] + Itoa(|v|)) + CRLF + (v + CRLF + z)
  {
    hide Itoa, Bulk;
    BulkIs(v);
    Regrouped([DOLLAR] + Itoa(|v|) + CRLF, v, CRLF, z);
  }

  lemma Regrouped(a: Bytes, b: Bytes, c: Bytes, z: Bytes)
    ensures (a + (b + c)) + z == a + (b + c + z)
  {
    assert (a + (b + c)) + z == a + ((b + c) + z);
  }

  lemma ThreeErrors(e: seq<Event>)
    ensures [BadCommand] + ([BadCommand] + ([BadCommand] + e)) == Errors(3) + e
  {
  }

  /** A bad frame of one item goes all at once. */
  lemma BadWhole(args: seq<Bytes>, z: Bytes)
    requires BadFrame(args) && |args| == 1
    ensures
      var d := Drain(z);
      Drain(RespFrame(args) + z) == Drained(Errors(3) + d.events, d.rest, d.panicked)
  {
    BadFront(args, Unit.Bad(args));
    hide BadFrame, Drain, HeadText, Bulk, RespFrame;
    var h, b := HeadText(args) + CRLF, Bulk(args[0]);
    assert (h + b) + z == h + (b + z);
    VerbDrops(args, z);
  }

  lemma BulkIs(v: Bytes)
    ensures Bulk(v) == ([DOLLAR] + Itoa(|v|) + CRLF) + (v + CRLF)
  {
    hide Itoa;
  }

  // ---- whole buffers ----------------------------------------------------------------------

  predicate NoGood(us: seq<Unit>) {
    forall i :: 0 <= i < |us| ==> us[i].Bad?
  }

  /** No frame that is dropped in pieces has a well-formed one behind it: a bad frame with more
      than a verb, or one that has already begun to be dropped. */
  predicate Calm(ts: seq<Bytes>, us: seq<Unit>) {
    && (ts != [] ==> NoGood(us))
    && (forall i, j :: 0 <= i < j < |us| && us[i].Bad? && |us[i].args| > 1 ==> us[j].Bad?)
  }

  lemma CalmStep(ts: seq<Bytes>, us: seq<Unit>, inline: bool)
    requires (ts != [] || us != []) && Calm(ts, us) && (inline ==> NoGood(us))
    ensures Calm(NextLines(ts, us, inline), NextUnits(ts, us)) && (NoGood(us) ==> NoGood(NextUnits(ts, us)))
  {
    hide ItemLines;
    if ts == [] && us[0].Bad? && |us[0].args| > 1 {
      forall j | 0 < j < |us| ensures us[j].Bad? {}
    }
  }

  /** What a loop has made of a buffer: `took` is gone with the events `ev`, `rest` is kept, and
      `ts`, `us` became `ts'`, `us'`. */
  predicate Left(ts: seq<Bytes>, us: seq<Unit>, buf: Bytes, took: Bytes, ev: seq<Event>, ts': seq<Bytes>, us': seq<Unit>, rest: Bytes)
    requires AllUnits(us)
  {
    && AllJunk(ts') && AllUnits(us')
    && ToCome(ts, us) == took + ToCome(ts', us') && buf == took + rest
    && Events(ts, us) == ev + Events(ts', us')
    && rest <= ToCome(ts', us') && (rest == ToCome(ts', us') ==> ts' == [] && us' == [])
  }

  lemma LeftNone(ts: seq<Bytes>, us: seq<Unit>, buf: Bytes)
    requires AllJunk(ts) && AllUnits(us) && buf <= ToCome(ts, us) && (buf == ToCome(ts, us) ==> ts == [] && us == [])
    ensures Left(ts, us, buf, [], [], ts, us, buf)
  {
    hide ToCome, Events, AllJunk, AllUnits;
    assert [] + ToCome(ts, us) == ToCome(ts, us) && [] + buf == buf && [] + Events(ts, us) == Events(ts, us);
  }

  lemma LeftStep(ts: seq<Bytes>, us: seq<Unit>, inline: bool, z: Bytes, took: Bytes, ev: seq<Event>, ts': seq<Bytes>, us': seq<Unit>, rest: Bytes)
    requires (ts != [] || us != []) && AllUnits(us) && AllJunk(ts)
    requires AllUnits(NextUnits(ts, us)) && Left(NextLines(ts, us, inline), NextUnits(ts, us), z, took, ev, ts', us', rest)
    ensures
      var t, y := Taken(ts, us, inline), Yielded(ts, us, inline);
      Left(ts, us, t + z, t + took, y + ev, ts', us', rest)
  {
    hide ToCome, Events, AllJunk, AllUnits, Taken, Yielded, NextLines, NextUnits;
    StepAddsUp(ts, us, inline);
    var t, y := Taken(ts, us, inline), Yielded(ts, us, inline);
    assert t + (took + ToCome(ts', us')) == (t + took) + ToCome(ts', us');
    assert t + (took + rest) == (t + took) + rest;
    assert y + (ev + Events(ts', us')) == (y + ev) + Events(ts', us');
  }

  lemma NeededIsFront(ts: seq<Bytes>, us: seq<Unit>)
    requires (ts != [] || us != []) && AllUnits(us) && AllJunk(ts)
    ensures Needed(ts, us) <= ToCome(ts, us) && |Taken(ts, us, false)| <= |Needed(ts, us)|
  {
    hide Junk, WellFormed, HeadText, IsUnit;
    if ts != [] {
      LineAddsUp(ts, us);
      hide ToCome;
    } else {
      assert IsUnit(us[0]);
      NothingBefore(us);
      UnitsUnfold(us);
      if us[0].Bad? {
        BadFront(us[0].args, us[0]);
      }
      hide ToCome, UnitBytes, RespFrame, Bulk;
    }
  }

  lemma BadFront(args: seq<Bytes>, u: Unit)
    requires u == Unit.Bad(args) && IsUnit(u)
    ensures |args| >= 1 && (HeadText(args) + CRLF) + Bulk(args[0]) <= RespFrame(args)
    ensures |args| == 1 ==> (HeadText(args) + CRLF) + Bulk(args[0]) == RespFrame(args)
  {
    hide Itoa, Bulk, AllJunk, VerbOf;
    var h, b, more := HeadText(args) + CRLF, Bulk(args[0]), BulkAll(args[1..]);
    assert h == Header(STAR, |args|);
    assert RespFrame(args) == h + (b + more) == (h + b) + more;
  }

  /** The RESP loop takes whole steps and keeps the rest. */
  lemma {:induction false} DrainMixed(ts: seq<Bytes>, us: seq<Unit>, buf: Bytes)
      returns (took: Bytes, ev: seq<Event>, ts': seq<Bytes>, us': seq<Unit>, rest: Bytes)
    requires AllJunk(ts) && AllUnits(us) && buf <= ToCome(ts, us)
    ensures Left(ts, us, buf, took, ev, ts', us', rest) && Drain(buf) == Drained(ev, rest, false)
    ensures Calm(ts, us) ==> Calm(ts', us')
    decreases |us|, |ts|
  {
    assert ts != [] ==> NextLines(ts, us, false) == ts[1..];
    hide Left, ToCome, AllJunk, AllUnits, Calm, Drain, Taken, Yielded, Needed, NextLines;
    if ts == [] && us == [] {
      NothingLeft(buf);
      took, ev, ts', us', rest := [], [], ts, us, buf;
    } else {
      NeededIsFront(ts, us);
      if |buf| < |Needed(ts, us)| {
        FrontPart(buf, Needed(ts, us), ToCome(ts, us));
        RespWaits(ts, us, buf);
        LeftNone(ts, us, buf);
        took, ev, ts', us', rest := [], [], ts, us, buf;
      } else {
        var t := Taken(ts, us, false);
        StepAddsUp(ts, us, false);
        PrefixOfSum(buf, t, ToCome(NextLines(ts, us, false), NextUnits(ts, us)));
        var z := buf[|t|..];
        FrontWhole(buf, Needed(ts, us), ToCome(ts, us));
        RespSteps(ts, us, z);
        took, ev, ts', us', rest := DrainMixed(NextLines(ts, us, false), NextUnits(ts, us), z);
        LeftStep(ts, us, false, z, took, ev, ts', us', rest);
        if Calm(ts, us) {
          CalmStep(ts, us, false);
        }
        took, ev := t + took, Yielded(ts, us, false) + ev;
      }
    }
  }

  lemma NothingLeft(buf: Bytes)
    requires buf <= ToCome([], [])
    ensures buf == [] && Left([], [], [], [], [], [], [], []) && Drain([]) == Drained([], [], false)
  {
    NoLines();
    DrainNothing();
    assert AllUnits([]) && AllJunk([]);
    assert ToCome([], []) == [] && Events([], []) == [];
  }

  lemma FrontPart(buf: Bytes, need: Bytes, all: Bytes)
    requires buf <= all && need <= all && |buf| < |need|
    ensures buf < need && buf != all
  {
  }

  lemma FrontWhole(buf: Bytes, need: Bytes, all: Bytes)
    requires buf <= all && need <= all && |need| <= |buf|
    ensures need <= buf
  {
  }

  // ---- the inline loop on what is to come ----------------------------------------------------

  /** The next line of junk, which may be an array header. */
  function NextText(ts: seq<Bytes>, us: seq<Unit>): Bytes
    requires ts != [] || us != []
  {
    if ts != [] then ts[0] else HeadText(us[0].args)
  }

  lemma InlineTakesLine(ts: seq<Bytes>, us: seq<Unit>)
    requires (ts != [] || us != []) && AllUnits(us) && AllJunk(ts) && NoGood(us)
    ensures Unknown(NextText(ts, us)) && Taken(ts, us, true) == NextText(ts, us) + CRLF && Yielded(ts, us, true) == [BadCommand]
  {
    hide Words, VerbOf, Itoa, IsUnit;
    assert Errors(1) == [BadCommand];
    if ts == [] {
      MarkedNumber(STAR, |us[0].args|);
    } else {
      assert Junk(ts[0]);
    }
  }

  lemma {:induction false} InlineMixed(ts: seq<Bytes>, us: seq<Unit>, buf: Bytes)
      returns (took: Bytes, ev: seq<Event>, ts': seq<Bytes>, us': seq<Unit>, rest: Bytes)
    requires AllJunk(ts) && AllUnits(us) && NoGood(us) && buf <= ToCome(ts, us)
    ensures Left(ts, us, buf, took, ev, ts', us', rest) && DrainInline(buf) == Drained(ev, rest, false)
    ensures NoGood(us') && (Calm(ts, us) ==> Calm(ts', us'))
    decreases |us|, |ts|
  {
    assert ts != [] ==> NextLines(ts, us, true) == ts[1..];
    hide Left, ToCome, AllJunk, AllUnits, Calm, DrainInline, Taken, Yielded, NextLines, NoGood, Unknown, NextText;
    if ts == [] && us == [] {
      NothingLeft(buf);
      DrainEmpty();
      took, ev, ts', us', rest := [], [], ts, us, buf;
    } else {
      var line := NextText(ts, us);
      InlineTakesLine(ts, us);
      StepAddsUp(ts, us, true);
      var after := ToCome(NextLines(ts, us, true), NextUnits(ts, us));
      PrefixOfSum(buf, line + CRLF, after);
      if |buf| < |line + CRLF| {
        UnknownEnds(line);
        DrainPart(line, buf);
        LeftNone(ts, us, buf);
        took, ev, ts', us', rest := [], [], ts, us, buf;
      } else {
        var z := buf[|line + CRLF|..];
        InlineJunk(line, z);
        if Calm(ts, us) {
          CalmStep(ts, us, true);
        }
        NoGoodStep(ts, us);
        took, ev, ts', us', rest := InlineMixed(NextLines(ts, us, true), NextUnits(ts, us), z);
        LeftStep(ts, us, true, z, took, ev, ts', us', rest);
        took, ev := Taken(ts, us, true) + took, Yielded(ts, us, true) + ev;
      }
    }
  }

  lemma UnknownEnds(t: Bytes)
    requires Unknown(t)
    ensures NoEnds(t)
  {
  }

  lemma NoGoodStep(ts: seq<Bytes>, us: seq<Unit>)
    requires (ts != [] || us != []) && NoGood(us)
    ensures NoGood(NextUnits(ts, us))
  {
  }

  // ---- reads -------------------------------------------------------------------------------

  /** The events of a list of reads and the bytes they leave; each read chooses its loop by the
      first byte of the buffer. */
  function Reads(buf: Bytes, chunks: seq<Bytes>): (seq<Event>, Bytes)
    decreases |chunks|
  {
    if chunks == [] then ([], buf)
    else
      var b := buf + chunks[0];
      var d := if b != [] && b[0] == STAR then Drain(b) else DrainInline(b);
      var (ev, rest) := Reads(d.rest, chunks[1..]);
      (d.events + ev, rest)
  }

  lemma FirstByteTells(ts: seq<Bytes>, us: seq<Unit>, buf: Bytes)
    requires AllJunk(ts) && AllUnits(us) && buf <= ToCome(ts, us) && buf != []
    ensures buf[0] == STAR <==> ts == []
  {
    hide Unknown, IsUnit, Itoa, BulkAll;
    assert buf[0] == ToCome(ts, us)[0];
    if ts != [] {
      assert Junk(ts[0]);
      assert (ts[0] + CRLF)[0] == ts[0][0];
    } else {
      NothingBefore(us);
      assert us != [] ==> RespFrame(us[0].args)[0] == STAR;
    }
  }

  lemma {:induction false} ReadsMixed(ts: seq<Bytes>, us: seq<Unit>, buf: Bytes, chunks: seq<Bytes>)
    requires AllJunk(ts) && AllUnits(us) && Calm(ts, us) && (forall i :: 0 <= i < |chunks| ==> chunks[i] != [])
    requires buf + Concat(chunks) == ToCome(ts, us) && (buf == ToCome(ts, us) ==> ts == [] && us == [])
    ensures Reads(buf, chunks) == (Events(ts, us), [])
    decreases |chunks|
  {
    hide AllJunk, AllUnits, Drain, DrainInline, ToCome, Events, Left;
    if chunks == [] {
      assert buf + [] == buf;
      NothingToCome(buf);
    } else {
      var b := buf + chunks[0];
      assert buf + Concat(chunks) == b + Concat(chunks[1..]);
      FirstByteTells(ts, us, b);
      var took, ev, ts', us', rest;
      if ts == [] {
        took, ev, ts', us', rest := DrainMixed(ts, us, b);
      } else {
        took, ev, ts', us', rest := InlineMixed(ts, us, b);
      }
      LeftAfter(ts, us, b, took, ev, ts', us', rest, Concat(chunks[1..]));
      ReadsMixed(ts', us', rest, chunks[1..]);
    }
  }

  lemma NothingToCome(buf: Bytes)
    requires buf == ToCome([], [])
    ensures buf == [] && Events([], []) == []
  {
    NoLines();
  }

  lemma LeftAfter(ts: seq<Bytes>, us: seq<Unit>, buf: Bytes, took: Bytes, ev: seq<Event>, ts': seq<Bytes>, us': seq<Unit>, rest: Bytes, more: Bytes)
    requires AllUnits(us) && Left(ts, us, buf, took, ev, ts', us', rest) && buf + more == ToCome(ts, us)
    ensures AllJunk(ts') && AllUnits(us') && rest + more == ToCome(ts', us') && Events(ts, us) == ev + Events(ts', us')
    ensures rest == ToCome(ts', us') ==> ts' == [] && us' == []
  {
    hide ToCome, Events, AllJunk, AllUnits;
    TailOfStream(took, rest, more, ToCome(ts', us'));
  }

  // ---- exactly when chunking does not matter -----------------------------------------------

  /** However the stream is cut into reads, every well-formed frame is run, in order, each line of
      a bad one gets one error, and nothing is left. */
  ghost predicate AlwaysUnderstood(us: seq<Unit>)
    requires AllUnits(us)
  {
    forall chunks: seq<Bytes> :: NonEmpty(chunks) && Concat(chunks) == UnitBytes(us) ==> Reads([], chunks) == (AllUnitEvents(us), [])
  }

  predicate NonEmpty(chunks: seq<Bytes>) {
    forall i :: 0 <= i < |chunks| ==> chunks[i] != []
  }

  lemma CalmIsUnderstood(us: seq<Unit>, chunks: seq<Bytes>)
    requires AllUnits(us) && Calm([], us) && NonEmpty(chunks) && Concat(chunks) == UnitBytes(us)
    ensures Reads([], chunks) == (AllUnitEvents(us), [])
  {
    hide IsUnit, Calm, UnitBytes, AllUnitEvents, Concat, Reads;
    NothingBefore(us);
    assert [] + Concat(chunks) == Concat(chunks);
    if us != [] {
      StepAddsUp([], us, false);
      hide Taken, ToCome;
    }
    ReadsMixed([], us, [], chunks);
  }

  /** Read at once, every such stream is understood: each well-formed frame is run, in order, and
      each line of a bad one gets one error. */
  lemma WholeIsUnderstood(us: seq<Unit>)
    requires AllUnits(us)
    ensures Drain(UnitBytes(us)) == Drained(AllUnitEvents(us), [], false)
  {
    hide IsUnit, UnitBytes, AllUnitEvents, Drain, ToCome, Events;
    NothingBefore(us);
    var all := UnitBytes(us);
    var took, ev, ts', us', rest := DrainMixed([], us, all);
    assert took + rest == took + ToCome(ts', us');
    SameTail(took, rest, ToCome(ts', us'));
    NothingBefore([]);
    EventsOfNothing();
    assert ev + [] == ev;
  }

  lemma SameTail(a: Bytes, b: Bytes, c: Bytes)
    requires a + b == a + c
    ensures b == c
  {
    assert (a + b)[|a|..] == b && (a + c)[|a|..] == c;
  }

  lemma EventsOfNothing()
    ensures Events([], []) == [] && ToCome([], []) == [] && UnitBytes([]) == [] && AllUnitEvents([]) == []
  {
    NoLines();
  }

  /** A bad frame that the RESP loop drops whole. */
  predicate Atomic(us: seq<Unit>) {
    forall i :: 0 <= i < |us| ==> us[i].Good? || |us[i].args| == 1
  }

  lemma {:induction false} DrainWhole(us: seq<Unit>, z: Bytes)
    requires AllUnits(us) && Atomic(us)
    ensures
      var d := Drain(z);
      Drain(UnitBytes(us) + z) == Drained(AllUnitEvents(us) + d.events, d.rest, d.panicked)
    decreases |us|
  {
    hide Drain, RespFrame, WellFormed, BadFrame;
    if us == [] {
      assert [] + z == z && [] + Drain(z).events == Drain(z).events;
    } else {
      assert IsUnit(us[0]) && (us[0].Good? || |us[0].args| == 1);
      var tail := UnitBytes(us[1..]) + z;
      assert UnitBytes(us) + z == RespFrame(us[0].args) + tail;
      DrainWhole(us[1..], z);
      if us[0].Good? {
        DrainHead(us[0].args, tail);
      } else {
        BadWhole(us[0].args, tail);
      }
      var e := UnitEvents(us[0]);
      assert e + (AllUnitEvents(us[1..]) + Drain(z).events) == (e + AllUnitEvents(us[1..])) + Drain(z).events;
    }
  }

  /** Header and verb of a bad frame alone: three errors and nothing left. */
  lemma DrainVerb(args: seq<Bytes>)
    requires BadFrame(args)
    ensures Drain((HeadText(args) + CRLF) + Bulk(args[0])) == Drained(Errors(3), [], false)
  {
    assert |args| >= 1;
    hide BadFrame, Drain, HeadText, Bulk;
    VerbDrops(args, []);
    DrainNothing();
    assert Bulk(args[0]) + [] == Bulk(args[0]) && Errors(3) + [] == Errors(3);
  }

  /** The inline loop never understands a well-formed frame: its header is an unknown line. */
  lemma {:induction false} InlineMisses(ts: seq<Bytes>, us: seq<Unit>, g: nat)
    requires AllJunk(ts) && AllUnits(us) && g < |us| && us[g].Good?
    ensures DrainInline(ToCome(ts, us)).events != Events(ts, us)
    decreases |us|, |ts|
  {
    hide DrainInline, Junk, IsUnit, HeadText, ItemLines, ToCome, Events;
    if ts != [] {
      MissLine(ts, us);
      InlineMisses(ts[1..], us, g);
    } else if us[0].Bad? {
      MissBad(us);
      InlineMisses(ItemLines(us[0].args), us[1..], g - 1);
    } else {
      MissGood(us);
    }
  }

  lemma MissLine(ts: seq<Bytes>, us: seq<Unit>)
    requires ts != [] && AllJunk(ts) && AllUnits(us)
    ensures DrainInline(ToCome(ts, us)).events == Events(ts, us) ==> DrainInline(ToCome(ts[1..], us)).events == Events(ts[1..], us)
  {
    hide DrainInline, Junk, IsUnit, ToCome, Events;
    assert Errors(1) == [BadCommand];
    assert Junk(ts[0]);
    LineAddsUp(ts, us);
    JunkIsUnknown(ts[0]);
    InlineJunk(ts[0], ToCome(ts[1..], us));
    Cancel([BadCommand], DrainInline(ToCome(ts[1..], us)).events, Events(ts[1..], us));
  }

  lemma MissBad(us: seq<Unit>)
    requires us != [] && AllUnits(us) && us[0].Bad?
    ensures AllUnits(us[1..]) && AllJunk(ItemLines(us[0].args))
    ensures
      var ts, rest := ItemLines(us[0].args), us[1..];
      DrainInline(ToCome([], us)).events == Events([], us) ==> DrainInline(ToCome(ts, rest)).events == Events(ts, rest)
  {
    hide DrainInline, Junk, WellFormed, BadFrame, HeadText, ItemLines, ToCome, Events, RespFrame, UnitBytes, AllUnitEvents;
    assert Errors(1) == [BadCommand];
    NothingBefore(us);
    UnitsUnfold(us);
    var args := us[0].args;
    BadAddsUp(args, us[1..]);
    HeadIsUnknown(args);
    var z := ToCome(ItemLines(args), us[1..]);
    InlineJunk(HeadText(args), z);
    Cancel([BadCommand], DrainInline(z).events, Events(ItemLines(args), us[1..]));
  }

  lemma MissGood(us: seq<Unit>)
    requires us != [] && AllUnits(us) && us[0].Good?
    ensures DrainInline(ToCome([], us)).events != Events([], us)
  {
    hide DrainInline, WellFormed, BadFrame, HeadText, ItemLines, Lines, ToCome, Events, RespFrame, UnitBytes, AllUnitEvents, CommandOf;
    NothingBefore(us);
    UnitsUnfold(us);
    var args := us[0].args;
    HeadIsUnknown(args);
    FrameSplits(args);
    var h, items, ub := HeadText(args), Lines(ItemLines(args)), UnitBytes(us[1..]);
    assert ((h + CRLF) + items) + ub == h + CRLF + (items + ub);
    InlineJunk(h, items + ub);
    assert ([BadCommand] + DrainInline(items + ub).events)[0] == BadCommand;
    GoodRuns(us[0]);
  }

  lemma GoodRuns(u: Unit)
    requires IsUnit(u) && u.Good?
    ensures UnitEvents(u) != [] && UnitEvents(u)[0].Run?
  {
    hide CommandOf, Sized;
  }

  lemma Cancel(p: seq<Event>, a: seq<Event>, b: seq<Event>)
    ensures p + a == p + b ==> a == b
  {
    assert (p + a)[|p|..] == a && (p + b)[|p|..] == b;
  }

  lemma JunkIsUnknown(t: Bytes)
    requires Junk(t)
    ensures Unknown(t)
  {
  }

  lemma HeadIsUnknown(args: seq<Bytes>)
    ensures Unknown(HeadText(args))
  {
    MarkedNumber(STAR, |args|);
  }

  /** A read that ends behind the verb of a bad frame with more items sends what follows to the
      inline loop, and the next well-formed frame is lost. */
  lemma CutBehindVerb(us: seq<Unit>, i: nat, g: nat)
    requires AllUnits(us) && i < g < |us| && Atomic(us[..i]) && us[i].Bad? && |us[i].args| > 1 && us[g].Good?
    ensures
      var first := UnitBytes(us[..i]) + ((HeadText(us[i].args) + CRLF) + Bulk(us[i].args[0]));
      var second := Lines(ItemLines(us[i].args[1..])) + UnitBytes(us[i + 1..]);
      && first + second == UnitBytes(us) && first != [] && second != []
      && Reads([], [first, second]).0 != AllUnitEvents(us)
  {
    hide Junk, WellFormed, BadFrame, RespFrame, HeadText, ItemLines, Drain, DrainInline, Lines, Bulk, Reads, UnitBytes, AllUnitEvents, Events, ToCome, Atomic;
    assert IsUnit(us[i]);
    HasItem(us, i);
    var args, after := us[i].args, us[i + 1..];
    var pre, verb, more := UnitBytes(us[..i]), (HeadText(args) + CRLF) + Bulk(args[0]), Lines(ItemLines(args[1..]));
    UnitsSplit(us, i);
    BadCut(args);
    MoreJunk(args);
    CutBytes(pre, verb, more, UnitBytes(after));
    HeadStarts(args, Bulk(args[0]));
    FirstOf(us[..i], verb);
    FirstRead(us[..i], args);
    ReadsTwo(pre + verb, more + UnitBytes(after));
    LaterRead(args, after, g - i - 1);
    BadTail(args, after, AllUnitEvents(us[..i]));
    Cancel(AllUnitEvents(us[..i]) + Errors(3), DrainInline(more + UnitBytes(after)).events, Events(ItemLines(args[1..]), after));
  }

  lemma CutBytes(pre: Bytes, verb: Bytes, more: Bytes, rest: Bytes)
    requires more != []
    ensures (pre + verb) + (more + rest) == pre + ((verb + more) + rest)
    ensures more + rest != [] && (more + rest)[0] == more[0]
  {
  }

  lemma FirstRead(us: seq<Unit>, args: seq<Bytes>)
    requires AllUnits(us) && Atomic(us) && BadFrame(args)
    ensures
      var d := Drain(UnitBytes(us) + ((HeadText(args) + CRLF) + Bulk(args[0])));
      d.events == AllUnitEvents(us) + Errors(3) && d.rest == []
  {
    assert |args| >= 1;
    hide BadFrame, HeadText, Drain, Bulk, UnitBytes, AllUnitEvents, Atomic, IsUnit;
    DrainWhole(us, (HeadText(args) + CRLF) + Bulk(args[0]));
    DrainVerb(args);
  }

  lemma LaterRead(args: seq<Bytes>, after: seq<Unit>, g: nat)
    requires BadFrame(args) && |args| > 1 && AllUnits(after) && g < |after| && after[g].Good?
    ensures DrainInline(Lines(ItemLines(args[1..])) + UnitBytes(after)).events != Events(ItemLines(args[1..]), after)
  {
    hide BadFrame, DrainInline, Lines, ItemLines, UnitBytes, Events, IsUnit, AllJunk;
    MoreJunk(args);
    InlineMisses(ItemLines(args[1..]), after, g);
  }

  lemma {:induction false} UnitsSplit(us: seq<Unit>, i: nat)
    requires AllUnits(us) && i < |us|
    ensures AllUnits(us[..i]) && AllUnits(us[i + 1..]) && IsUnit(us[i])
    ensures UnitBytes(us) == UnitBytes(us[..i]) + (RespFrame(us[i].args) + UnitBytes(us[i + 1..]))
    ensures AllUnitEvents(us) == AllUnitEvents(us[..i]) + (UnitEvents(us[i]) + AllUnitEvents(us[i + 1..]))
    decreases i
  {
    hide RespFrame, IsUnit, UnitEvents;
    if i == 0 {
      assert us[..0] == [];
      assert [] + UnitBytes(us) == UnitBytes(us) && [] + AllUnitEvents(us) == AllUnitEvents(us);
    } else {
      UnitsSplit(us[1..], i - 1);
      assert us[..i][1..] == us[1..][..i - 1] && us[1..][i..] == us[i + 1..];
    }
  }

  lemma BadCut(args: seq<Bytes>)
    requires args != []
    ensures RespFrame(args) == ((HeadText(args) + CRLF) + Bulk(args[0])) + Lines(ItemLines(args[1..]))
  {
    hide Itoa, Lines, ItemLines, Bulk;
    FrameLines(args[1..]);
    var h := HeadText(args) + CRLF;
    assert h == Header(STAR, |args|);
    assert h + (Bulk(args[0]) + BulkAll(args[1..])) == (h + Bulk(args[0])) + BulkAll(args[1..]);
  }

  lemma MoreJunk(args: seq<Bytes>)
    requires BadFrame(args) && |args| > 1
    ensures AllJunk(ItemLines(args[1..])) && |ItemLines(args[1..])| == 2 * (|args| - 1)
    ensures Lines(ItemLines(args[1..])) != [] && Lines(ItemLines(args[1..]))[0] == DOLLAR
  {
    assert forall i :: 0 <= i < |args[1..]| ==> Junk(args[1..][i]);
    hide Junk, Itoa, VerbOf;
    ItemLinesJunk(args[1..]);
  }

  lemma HeadStarts(args: seq<Bytes>, z: Bytes)
    ensures ((HeadText(args) + CRLF) + z)[0] == STAR
  {
    hide Itoa;
  }

  lemma FirstOf(us: seq<Unit>, verb: Bytes)
    requires AllUnits(us) && verb != [] && verb[0] == STAR
    ensures UnitBytes(us) + verb != [] && (UnitBytes(us) + verb)[0] == STAR
  {
    hide IsUnit, Itoa, BulkAll;
  }

  lemma ReadsTwo(first: Bytes, second: Bytes)
    requires first != [] && first[0] == STAR && Drain(first).rest == [] && second != [] && second[0] != STAR
    ensures Reads([], [first, second]).0 == Drain(first).events + DrainInline(second).events
  {
    hide Drain, DrainInline;
    assert [first, second][1..] == [second] && [second][1..] == [];
    assert [] + first == first && [] + second == second;
    assert DrainInline(second).events + [] == DrainInline(second).events;
    assert Reads([], [second]).0 == DrainInline(second).events;
  }

  lemma BadTail(args: seq<Bytes>, after: seq<Unit>, pre: seq<Event>)
    requires BadFrame(args) && |args| > 1 && AllUnits(after) && |ItemLines(args[1..])| == 2 * (|args| - 1)
    ensures pre + (Errors(1 + 2 * |args|) + AllUnitEvents(after)) == (pre + Errors(3)) + Events(ItemLines(args[1..]), after)
  {
    hide ItemLines, BadFrame, IsUnit, AllUnitEvents;
    var ue, n := AllUnitEvents(after), 2 * (|args| - 1);
    assert Errors(1 + 2 * |args|) == Errors(3) + Errors(n);
    assert pre + ((Errors(3) + Errors(n)) + ue) == (pre + Errors(3)) + (Errors(n) + ue);
  }

  /** The exact condition: chunking never matters if and only if no bad frame with more than a verb
      has a well-formed frame behind it. */
  lemma UnderstoodExactly(us: seq<Unit>)
    requires AllUnits(us)
    ensures AlwaysUnderstood(us) <==> Calm([], us)
  {
    hide IsUnit, UnitBytes, AllUnitEvents, Reads, Concat, Calm;
    if Calm([], us) {
      forall chunks: seq<Bytes> | NonEmpty(chunks) && Concat(chunks) == UnitBytes(us)
        ensures Reads([], chunks) == (AllUnitEvents(us), [])
      {
        CalmIsUnderstood(us, chunks);
      }
    } else {
      var i, g := FirstCut(us);
      CutBehindVerb(us, i, g);
      var first := UnitBytes(us[..i]) + ((HeadText(us[i].args) + CRLF) + Bulk(us[i].args[0]));
      var second := Lines(ItemLines(us[i].args[1..])) + UnitBytes(us[i + 1..]);
      ConcatTwo(first, second);
      assert NonEmpty([first, second]);
      assert Concat([first, second]) == UnitBytes(us);
    }
  }

  lemma ConcatTwo(a: Bytes, b: Bytes)
    ensures Concat([a, b]) == a + b
  {
    assert [a, b][1..] == [b] && [b][1..] == [] && b + [] == b;
    assert Concat([b]) == b;
  }

  lemma FirstCut(us: seq<Unit>) returns (i: nat, g: nat)
    requires AllUnits(us) && !Calm([], us)
    ensures i < g < |us| && Atomic(us[..i]) && us[i].Bad? && |us[i].args| > 1 && us[g].Good?
  {
    hide IsUnit;
    var i0: nat, g0: nat :| i0 < g0 < |us| && us[i0].Bad? && |us[i0].args| > 1 && !us[g0].Bad?;
    assert us[..0] == [];
    i := FirstLong(us, 0, i0);
    g := g0;
  }

  lemma {:induction false} FirstLong(us: seq<Unit>, from: nat, last: nat) returns (i: nat)
    requires AllUnits(us) && from <= last < |us| && us[last].Bad? && |us[last].args| > 1 && Atomic(us[..from])
    ensures i <= last && Atomic(us[..i]) && us[i].Bad? && |us[i].args| > 1
    decreases last - from
  {
    hide IsUnit;
    HasItem(us, from);
    if us[from].Bad? && |us[from].args| > 1 {
      i := from;
    } else {
      assert us[..from + 1] == us[..from] + [us[from]];
      i := FirstLong(us, from + 1, last);
    }
  }

  lemma HasItem(us: seq<Unit>, i: nat)
    requires AllUnits(us) && i < |us|
    ensures us[i].Bad? ==> |us[i].args| >= 1
  {
    assert IsUnit(us[i]);
  }

  // ---- sessions -------------------------------------------------------------------------

  /** A session that stays open has executed exactly the events of its reads. */
  lemma {:induction false} ServeIsReads<E>(exec: Handler<E>, s: State<E>, chunks: seq<Bytes>)
    requires !Serve(exec, s, chunks).closed
    ensures
      var end := Serve(exec, s, chunks);
      var (ev, rest) := Reads(s.readBuf, chunks);
      var (e, w) := ExecAll(exec, s.engine, ev);
      end.engine == e && end.sent == s.sent + w && end.readBuf == rest
    decreases |chunks|
  {
    hide Drain, DrainInline;
    if chunks == [] {
      assert s.sent + [] == s.sent;
    } else {
      var t := OnRead(exec, s, chunks[0]);
      if t.closed {
        ClosedStays(exec, t, chunks[1..]);
      } else {
        ServeIsReads(exec, t, chunks[1..]);
        OpenRead(exec, s, chunks[0]);
        var b := s.readBuf + chunks[0];
        var d := if b != [] && b[0] == STAR then Drain(b) else DrainInline(b);
        var (ev, rest) := Reads(d.rest, chunks[1..]);
        ExecAllAppend(exec, s.engine, d.events, ev);
        hide ExecAll, Reads, Serve, OnRead;
        var w1, w2 := ExecAll(exec, s.engine, d.events).1, ExecAll(exec, t.engine, ev).1;
        assert (s.sent + w1) + w2 == s.sent + (w1 + w2);
      }
    }
  }

  lemma OpenRead<E>(exec: Handler<E>, s: State<E>, chunk: Bytes)
    requires !OnRead(exec, s, chunk).closed
    ensures
      var b := s.readBuf + chunk;
      var d := if b != [] && b[0] == STAR then Drain(b) else DrainInline(b);
      var (e, w) := ExecAll(exec, s.engine, d.events);
      OnRead(exec, s, chunk) == State(e, d.rest, s.sent + w, false)
  {
    hide Drain, DrainInline, ExecAll;
  }

  /** Chunking independence with bad frames: however a calm stream is cut into reads, a session
      that no limit closed has run every well-formed frame, in order, has answered each line of a
      bad one with one error, and holds nothing back. */
  lemma MixedChunking<E>(exec: Handler<E>, e: E, us: seq<Unit>, chunks: seq<Bytes>)
    requires AllUnits(us) && Calm([], us) && NonEmpty(chunks) && Concat(chunks) == UnitBytes(us)
    requires !Serve(exec, Opened(e), chunks).closed
    ensures
      var s := Serve(exec, Opened(e), chunks);
      s.readBuf == [] && (s.engine, s.sent) == ExecAll(exec, e, AllUnitEvents(us))
  {
    hide IsUnit, Calm, UnitBytes, AllUnitEvents, Reads, Concat, Serve, ExecAll, NonEmpty;
    CalmIsUnderstood(us, chunks);
    ServeIsReads(exec, Opened(e), chunks);
    var w := ExecAll(exec, e, AllUnitEvents(us)).1;
    assert [] + w == w;
  }
}
