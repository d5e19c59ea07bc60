/** The fast inline parser against the simple one: where they agree, exactly. */
module InlineRefinement {
  import opened Bytes
  import opened Domain
  import opened InlineParser

  /** The lines on which the two parsers give different meanings. */
  predicate Divergent(ws: seq<Bytes>) {
    ws != [] &&
    var args := ws[1..];
    match VerbOf(ws[0])
    case VSet => |args| == 3 || (|args| == 4 && TtlOption(args[2], args[3]).Some?)
    case VExpire => |args| == 2 && SecondsDiverge(args[1])
    case _ => false
  }

  /** A number with a plus sign, or digits that do not fit 64 bits. */
  predicate SecondsDiverge(s: Bytes) {
    || (s != [] && s[0] == 43 && ParseU64(s).Some?)
    || (s != [] && AllDigits(s) && DecVal(s) >= TWO64)
  }

  /** Buffers without a line end, or whose first line ends in CR LF. */
  predicate CleanLine(buf: Bytes) {
    LF !in buf || (LineBreak(buf) + 1 < |buf| && buf[LineBreak(buf)] == CR && buf[LineBreak(buf) + 1] == LF)
  }

  lemma SecondsAgree(s: Bytes)
    ensures ParseU64(s) == AsciiU64(s) <==> !SecondsDiverge(s)
  {
    if s != [] && s[0] == 43 {
      assert !IsDigit(s[0]);
    } else if s != [] && AllDigits(s) {
      assert DecVal(s) < TWO64 ==> WrapU64(DecVal(s)) == DecVal(s);
    }
  }

  lemma CommandsAgree(ws: seq<Bytes>)
    ensures BorrowedCommand(ws) == LineCommand(ws) <==> !Divergent(ws)
  {
    if ws != [] {
      var args := ws[1..];
      if VerbOf(ws[0]).VExpire? && |args| == 2 {
        SecondsAgree(args[1]);
      }
    }
  }

  /** On every clean buffer the fast parser and the simple one give the same verdict, the
      same consumed count and the same command, exactly when the line is not divergent. */
  lemma FastParserRefinesSimple(buf: Bytes)
    requires CleanLine(buf)
    ensures
      var diverges := LF in buf && Divergent(Words(buf[..LineBreak(buf)]));
      BorrowedFrame(buf) == ParseInline(buf) <==> !diverges
  {
    var p := LineBreak(buf);
    if LF in buf {
      var nl := Find(buf, 0, LF);
      assert nl == p + 1;
      assert buf[..nl] == buf[..p] + [CR];
      WordsSnocSpace(buf[..p], CR);
      CommandsAgree(Words(buf[..p]));
      ToFrameInjective(BorrowedCommand(Words(buf[..p])), LineCommand(Words(buf[..p])), p + 2);
    }
  }

  lemma ToFrameInjective(a: Parsed, b: Parsed, n: nat)
    ensures ToFrame(a, n) == ToFrame(b, n) <==> a == b
  {
  }

  lemma UnknownPin()
    ensures VerbOf([80, 73, 78]) == VUnknown
  {
    var w: Bytes := [80, 73, 78];
    assert ToLower(w[0]) != ToLower(GET[0]) && ToLower(w[0]) != ToLower(SET[0]);
    assert ToLower(w[0]) != ToLower(DEL[0]) && ToLower(w[0]) != ToLower(TTL[0]);
  }

  /** A line ended by a bare LF is outside that domain: `PING` becomes unknown. */
  lemma BareLineFeedDiffers()
    ensures
      var buf: Bytes := PING + [LF];
      ParseInline(buf) == Complete(5, Ping) && BorrowedFrame(buf) == Failed(UnknownCommand([80, 73, 78]))
  {
    hide Words, VerbOf;
    var buf: Bytes := PING + [LF];
    assert buf == [80, 73, 78, 71, 10];
    assert buf[4] == LF && forall i :: 0 <= i < 4 ==> buf[i] != LF && buf[i] != CR;
    assert Find(buf, 0, LF) == 4;
    assert LineBreak(buf) == 4;
    assert buf[..4] == PING;
    WordsOfWord(PING);
    VerbOfName(VPing);
    var w: Bytes := [80, 73, 78];
    assert buf[..3] == w;
    WordsOfWord(w);
    UnknownPin();
  }

  // ---- lines that end in a bare line feed ---------------------------------------

  /** The words of a line whose last byte is cut off, when that byte ends the last word. */
  function Chopped(ws: seq<Bytes>): seq<Bytes>
    requires ws != [] && ws[|ws| - 1] != []
  {
    var n := |ws| - 1;
    if |ws[n]| == 1 then ws[..n] else ws[..n] + [ws[n][..|ws[n]| - 1]]
  }

  lemma WordEndChop(t: Bytes)
    requires t != [] && !IsSpace(t[|t| - 1])
    ensures
      var c := t[..|t| - 1];
      WordEnd(c) == if WordEnd(t) == |t| then |t| - 1 else WordEnd(t)
  {
    var c, i := t[..|t| - 1], WordEnd(t);
    if i == |t| {
      WordEndFull(c);
    } else {
      WordEndIs(c, i);
    }
  }

  lemma {:induction false} WordEndIs(s: Bytes, i: nat)
    requires i < |s| && IsSpace(s[i]) && forall j :: 0 <= j < i ==> !IsSpace(s[j])
    ensures WordEnd(s) == i
  {
    if i > 0 {
      WordEndIs(s[1..], i - 1);
    }
  }

  /** A line that ends in a word: its words, and those of the line without its last byte. */
  lemma {:induction false} WordsChop(s: Bytes)
    requires s != [] && !IsSpace(s[|s| - 1])
    ensures
      var ws := Words(s);
      && ws != [] && ws[|ws| - 1] != []
      && Words(s[..|s| - 1]) == Chopped(ws)
    decreases |s|
  {
    hide TrimStart, Words;
    var t := TrimStart(s);
    TrimStartChop(s);
    var i, c := WordEnd(t), t[..|t| - 1];
    WordEndChop(t);
    SplitWords(t);
    if i == |t| {
      assert t[..i] == t && t[i..] == [];
      NoWords();
      if c != [] {
        WordsOfWord(c);
      }
    } else {
      var rest := t[i..];
      assert rest[|rest| - 1] == t[|t| - 1];
      assert c[i..] == rest[..|rest| - 1] && c[..i] == t[..i];
      SplitWords(c);
      WordsChop(rest);
      ChoppedCons(t[..i], Words(rest));
    }
  }

  lemma ChoppedCons(w: Bytes, ws: seq<Bytes>)
    requires ws != [] && ws[|ws| - 1] != []
    ensures Chopped([w] + ws) == [w] + Chopped(ws)
  {
    var n := |ws| - 1;
    assert ([w] + ws)[..n + 1] == [w] + ws[..n];
  }

  lemma TrimStartChop(s: Bytes)
    requires s != [] && !IsSpace(s[|s| - 1])
    ensures
      var t, c := TrimStart(s), TrimStart(s[..|s| - 1]);
      && t != [] && t[|t| - 1] == s[|s| - 1] && c == t[..|t| - 1]
      && Words(s) == Words(t) && Words(s[..|s| - 1]) == Words(c)
  {
    TrimmedChop(s);
    WordsOfTrimmed(s);
    WordsOfTrimmed(s[..|s| - 1]);
    hide TrimStart, Words;
  }

  lemma WordsOfTrimmed(s: Bytes)
    ensures Words(TrimStart(s)) == Words(s)
  {
    TrimStartIdempotent(s);
  }

  lemma {:induction false} TrimmedChop(s: Bytes)
    requires s != [] && !IsSpace(s[|s| - 1])
    ensures
      var t, c := TrimStart(s), TrimStart(s[..|s| - 1]);
      t != [] && t[|t| - 1] == s[|s| - 1] && c == t[..|t| - 1]
    decreases |s|
  {
    if IsSpace(s[0]) {
      assert s[..|s| - 1][1..] == s[1..][..|s| - 2];
      TrimmedChop(s[1..]);
    }
  }

  // The lines whose meaning survives the loss of their last byte, command by command: `args`
  // are the arguments of the line, `cut` those of the line without that byte.

  predicate SetSurvives(args: seq<Bytes>, cut: seq<Bytes>) {
    || |args| == 1
    || (|args| == 4 && |cut| == 4 && TtlOption(args[2], args[3]).None?)
    || |args| >= 5
  }

  predicate ExpireSurvives(args: seq<Bytes>, cut: seq<Bytes>) {
    || |args| == 1
    || (|args| == 2 && |cut| == 1 && ParseU64(args[1]).None?)
    || (|args| == 2 && |cut| == 2 && (AllZeros(args[1]) || (ParseU64(args[1]).None? && !AllDigits(cut[1]))))
    || (|args| == 3 && (|cut| == 3 || AsciiU64(args[1]).None?))
    || |args| >= 4
  }

  predicate AllZeros(s: Bytes) {
    forall i :: 0 <= i < |s| ==> s[i] == 48
  }

  predicate ArgsSurvive(verb: Verb, args: seq<Bytes>, cut: seq<Bytes>) {
    match verb
    case VUnknown => true
    case VPing => true
    case VInfo => true
    case VDbSize => true
    case VSet => SetSurvives(args, cut)
    case VExpire => ExpireSurvives(args, cut)
    case VMget => false
    case VMset => |args| % 2 == 1 && (|cut| % 2 == 1 || cut == [])
    case VFlushDb => cut != []
    case VKeys => cut != []
    case _ => |cut| >= 2
  }

  /** The line has an argument, and cutting the last byte off it changes nothing. */
  predicate Survives(ws: seq<Bytes>) {
    |ws| >= 2 && ws[|ws| - 1] != [] && ArgsSurvive(VerbOf(ws[0]), ws[1..], Chopped(ws[1..]))
  }

  lemma {:induction false} ZeroValue(s: Bytes)
    requires AllDigits(s)
    ensures DecVal(s) == 0 <==> AllZeros(s)
    decreases |s|
  {
    if s != [] {
      ZeroValue(s[..|s| - 1]);
      assert s == s[..|s| - 1] + [s[|s| - 1]];
    }
  }

  /** The number that lost its last digit is the same only for zeros. */
  lemma SecondsChop(w: Bytes)
    requires |w| >= 2
    ensures
      var cut := w[..|w| - 1];
      (ParseU64(w).Some? && ParseU64(w) == AsciiU64(cut)) <==> AllZeros(w)
  {
    var cut := w[..|w| - 1];
    assert w == cut + [w[|w| - 1]];
    if AllDigits(w) {
      ZeroValue(w);
      ZeroValue(cut);
      assert w[0] != 43;
      assert DecVal(w) == DecVal(cut) * 10 + (w[|w| - 1] - 48);
    } else {
      assert AllZeros(w) ==> AllDigits(w);
      if ParseU64(w).Some? {
        assert w[0] == 43 && cut[0] == 43 && !IsDigit(cut[0]);
      }
    }
  }

  lemma ExpireChop(args: seq<Bytes>)
    requires args != [] && args[|args| - 1] != []
    ensures BorrowedExpire(Chopped(args)) == ExpireLine(args) <==> ExpireSurvives(args, Chopped(args))
  {
    hide ParseU64, AsciiU64;
    var cut := Chopped(args);
    if |args| == 2 && |cut| == 2 {
      SecondsChop(args[1]);
      AsciiNone(cut[1]);
      assert cut[0] == args[0];
    }
  }

  lemma AsciiNone(s: Bytes)
    requires s != []
    ensures AsciiU64(s).None? <==> !AllDigits(s)
  {
  }

  lemma OptionIsNoNumber(opt: Bytes, arg: Bytes)
    requires TtlOption(opt, arg).Some?
    ensures AsciiU64(opt).None?
  {
    hide ParseU64;
    assert opt != [] && !IsDigit(opt[0]);
  }

  lemma SetChop(args: seq<Bytes>)
    requires args != [] && args[|args| - 1] != []
    ensures BorrowedSet(Chopped(args)) == SetLine(args) <==> SetSurvives(args, Chopped(args))
  {
    hide TtlOption, AsciiU64;
    var cut := Chopped(args);
    if |args| == 4 && TtlOption(args[2], args[3]).Some? {
      OptionIsNoNumber(args[2], args[3]);
      assert |cut| == 3 ==> cut[2] == args[2];
    }
  }

  lemma ChoppedDiffers(args: seq<Bytes>)
    requires args != [] && args[|args| - 1] != []
    ensures Chopped(args) != args
    ensures |args| - 1 <= |Chopped(args)| <= |args|
  {
  }

  lemma PairUpInjective(a: seq<Bytes>, b: seq<Bytes>)
    requires |a| % 2 == 0 && |b| % 2 == 0 && PairUp(a) == PairUp(b)
    ensures a == b
  {
    forall i | 0 <= i < |a|
      ensures a[i] == b[i]
    {
      assert PairUp(a)[i / 2] == PairUp(b)[i / 2];
    }
  }

  lemma MsetChop(args: seq<Bytes>)
    requires args != [] && args[|args| - 1] != []
    ensures PairLine(Chopped(args)) == PairLine(args) <==> ArgsSurvive(VMset, args, Chopped(args))
  {
    var cut := Chopped(args);
    ChoppedDiffers(args);
    hide PairUp, Chopped;
    if |args| % 2 == 0 && |cut| % 2 == 0 && PairUp(args) == PairUp(cut) {
      PairUpInjective(args, cut);
    }
  }

  /** The length and the first letter of a command name. */
  predicate LooksKnown(w: Bytes) {
    w != [] &&
    var c := ToLower(w[0]);
    || (|w| == 3 && (c == 103 || c == 115 || c == 100 || c == 116))
    || (|w| == 4 && (c == 112 || c == 105 || c == 107 || c == 109))
    || (|w| == 6 && (c == 100 || c == 101))
    || (|w| == 7 && c == 102)
  }

  lemma KnownLooks(w: Bytes)
    requires !VerbOf(w).VUnknown?
    ensures LooksKnown(w)
  {
    var v := NameOf(VerbOf(w));
    assert EqIgnoreCase(w, v);
    assert ToLower(w[0]) == ToLower(v[0]);
  }

  /** No command name without its last letter is a command name. */
  lemma NoNameInName(w: Bytes)
    requires w != []
    ensures VerbOf(w).VUnknown? || VerbOf(w[..|w| - 1]).VUnknown?
  {
    hide VerbOf;
    if !VerbOf(w).VUnknown? && !VerbOf(w[..|w| - 1]).VUnknown? {
      KnownLooks(w);
      KnownLooks(w[..|w| - 1]);
      assert false;
    }
  }

  lemma OneWordChop(w: Bytes)
    requires w != []
    ensures BorrowedCommand(Chopped([w])) != LineCommand([w])
  {
    hide VerbOf;
    if |w| == 1 {
      assert Chopped([w]) == [];
    } else {
      var c := w[..|w| - 1];
      assert Chopped([w]) == [c];
      NoNameInName(w);
    }
  }

  /** Cutting off the last byte of the last word keeps the meaning exactly when it survives. */
  lemma CommandsChop(ws: seq<Bytes>)
    requires ws != [] && ws[|ws| - 1] != []
    ensures BorrowedCommand(Chopped(ws)) == LineCommand(ws) <==> Survives(ws)
  {
    hide VerbOf;
    if |ws| == 1 {
      assert ws == [ws[0]];
      OneWordChop(ws[0]);
    } else {
      var args := ws[1..];
      assert ws == [ws[0]] + args;
      ChoppedCons(ws[0], args);
      assert Chopped(ws)[1..] == Chopped(args);
      ArgsChop(ws[0], args);
    }
  }

  lemma ArgsChop(verb: Bytes, args: seq<Bytes>)
    requires args != [] && args[|args| - 1] != []
    ensures BorrowedCommand([verb] + Chopped(args)) == LineCommand([verb] + args)
        <==> ArgsSurvive(VerbOf(verb), args, Chopped(args))
  {
    hide VerbOf, Chopped, BorrowedSet, BorrowedExpire, SetLine, ExpireLine, PairLine, SetSurvives, ExpireSurvives;
    var cut := Chopped(args);
    assert ([verb] + cut)[1..] == cut && ([verb] + args)[1..] == args;
    ChoppedDiffers(args);
    match VerbOf(verb) {
      case VSet => SetChop(args);
      case VExpire => ExpireChop(args);
      case VMset => MsetChop(args);
      case _ =>
    }
  }

  /** Where the two parsers agree on a buffer: a line ended by CR LF that is not divergent, a
      line ended by a bare LF behind a blank that is not divergent, or behind a word whose last
      byte does not matter, or no line at all. A lone CR before the LF always divides them, and
      so does an LF at the front. */
  predicate Agree(buf: Bytes) {
    var p := LineBreak(buf);
    var ws := Words(buf[..p]);
    if LF !in buf then true
    else if buf[p] == CR then p + 1 < |buf| && buf[p + 1] == LF && !Divergent(ws)
    else p > 0 && (if IsSpace(buf[p - 1]) then !Divergent(ws) else Survives(ws))
  }

  /** Lines ended by a bare LF. At the front of the buffer the fast parser claims a byte too
      many; elsewhere both consume the line, and they agree exactly as stated. */
  lemma BareLineFeed(buf: Bytes)
    requires LineBreak(buf) < |buf| && buf[LineBreak(buf)] == LF
    ensures
      var p := LineBreak(buf);
      var fast, simple := BorrowedFrame(buf), ParseInline(buf);
      && (p == 0 ==> fast == Skip(2) && simple == Skip(1))
      && (p > 0 && (fast.Complete? || fast.Skip?) ==> fast.consumed == p + 1)
      && (p > 0 && (simple.Complete? || simple.Skip?) ==> simple.consumed == p + 1)
      && (fast == simple <==> Agree(buf))
  {
    hide LineCommand, BorrowedCommand, Divergent, Survives, Words;
    var p := LineBreak(buf);
    assert Find(buf, 0, LF) == p;
    var line := buf[..p];
    if p == 0 {
      assert line == [];
      NoWords();
    } else {
      var cut := buf[..p - 1];
      assert line == cut + [buf[p - 1]] && line[..|line| - 1] == cut;
      if IsSpace(buf[p - 1]) {
        WordsSnocSpace(cut, buf[p - 1]);
        CommandsAgree(Words(line));
      } else {
        WordsChop(line);
        CommandsChop(Words(line));
      }
      ToFrameInjective(BorrowedCommand(Words(cut)), LineCommand(Words(line)), p + 1);
    }
  }

  /** For every buffer, the exact condition under which the fast parser gives the verdict,
      the consumed count and the command of the simple one. */
  lemma ParsersAgree(buf: Bytes)
    ensures BorrowedFrame(buf) == ParseInline(buf) <==> Agree(buf)
  {
    var p := LineBreak(buf);
    if LF in buf && buf[p] == LF {
      BareLineFeed(buf);
    } else if CleanLine(buf) {
      FastParserRefinesSimple(buf);
    } else {
      hide LineCommand, BorrowedCommand, Words;
      assert BorrowedFrame(buf) == Incomplete && ParseInline(buf) != Incomplete;
    }
  }
}
