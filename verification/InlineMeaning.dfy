/** What an inline line means, measured against the RESP protocol and its encoder. */
module InlineMeaning {
  import opened Bytes
  import opened Domain
  import opened InlineParser
  import opened InlineRefinement
  import opened RespParser

  // ---- lines and argument vectors -----------------------------------------------

  function AsOption(p: Parsed): Option<Command> {
    match p
    case Ok(c) => Some(c)
    case Err(_) => None
  }

  /** Where the words of a line and the same words as a RESP array part: a line may carry
      arguments after PING, INFO and DBSIZE and any number of words; an array may carry unread
      arguments after SET. */
  predicate LineDiffers(ws: seq<Bytes>) {
    ws != [] &&
    var n := |ws| - 1;
    match VerbOf(ws[0])
    case VPing => n >= 1
    case VInfo => n >= 1
    case VDbSize => n >= 1
    case VSet => |ws| <= 1024 && (n == 3 || (n >= 5 && TtlOption(ws[3], ws[4]).Some?))
    case VMget => |ws| > 1024
    case VMset => |ws| > 1024 && n % 2 == 0
    case _ => false
  }

  /** A line and an array of the same words mean the same command, or neither means one, exactly
      when they do not differ as stated. */
  lemma LineIsArray(ws: seq<Bytes>)
    ensures AsOption(LineCommand(ws)) == CommandOf(ws) <==> !LineDiffers(ws)
  {
    hide VerbOf, TtlOption, ParseU64, PairUp;
    if ws != [] {
      var args := ws[1..];
      assert |args| == |ws| - 1 && forall i :: 0 <= i < |args| ==> args[i] == ws[i + 1];
    }
  }

  /** What a line means where it differs: the command without its arguments, nothing, or all its
      words. */
  lemma DifferentLine(ws: seq<Bytes>)
    requires LineDiffers(ws)
    ensures
      var v := VerbOf(ws[0]);
      && (v.VPing? || v.VInfo? || v.VDbSize? ==> AsOption(LineCommand(ws)) == CommandOf(ws[..1]) && CommandOf(ws[..1]).Some?)
      && (v.VSet? ==> LineCommand(ws) == Err(SyntaxError))
      && (v.VMget? ==> LineCommand(ws) == Ok(Mget(ws[1..])))
      && (v.VMset? ==> LineCommand(ws) == Ok(Mset(PairUp(ws[1..]))))
  {
    hide VerbOf, TtlOption, ParseU64, PairUp;
    assert ws[..1] == [ws[0]] && |ws[1..]| == |ws| - 1;
  }

  // ---- the line of a command -------------------------------------------------------

  /** A byte string that is one word of a line. */
  predicate IsWord(w: Bytes) {
    w != [] && forall i :: 0 <= i < |w| ==> !IsSpace(w[i])
  }

  predicate AllWords(ws: seq<Bytes>) {
    forall i :: 0 <= i < |ws| ==> IsWord(ws[i])
  }

  /** Words separated by blanks. */
  function Joined(ws: seq<Bytes>): Bytes {
    if ws == [] then [] else if |ws| == 1 then ws[0] else ws[0] + ([32] + Joined(ws[1..]))
  }

  lemma FirstWord(w: Bytes, rest: Bytes)
    requires IsWord(w) && (rest == [] || IsSpace(rest[0]))
    ensures Words(w + rest) == [w] + Words(rest)
  {
    var s := w + rest;
    assert s[0] == w[0];
    assert forall i :: 0 <= i < |w| ==> s[i] == w[i];
    if rest == [] {
      assert s == w;
      WordsOfWord(w);
      NoWords();
    } else {
      assert s[|w|] == rest[0];
      WordEndIs(s, |w|);
      assert s[..|w|] == w && s[|w|..] == rest;
    }
  }

  lemma LeadingBlank(s: Bytes)
    ensures Words([32] + s) == Words(s)
  {
    assert ([32] + s)[1..] == s;
  }

  /** Splitting inverts joining. */
  lemma {:induction false} WordsOfJoined(ws: seq<Bytes>)
    requires AllWords(ws)
    ensures Words(Joined(ws)) == ws
    decreases |ws|
  {
    hide Words;
    if ws == [] {
      NoWords();
    } else if |ws| == 1 {
      FirstWord(ws[0], []);
      NoWords();
      assert ws[0] + [] == ws[0] && [ws[0]] + [] == ws;
    } else {
      assert AllWords(ws[1..]);
      WordsOfJoined(ws[1..]);
      FirstWord(ws[0], [32] + Joined(ws[1..]));
      LeadingBlank(Joined(ws[1..]));
      assert [ws[0]] + ws[1..] == ws;
    }
  }

  // ---- what a word is --------------------------------------------------------------

  /** Blank, tab, CR or LF. */
  predicate AllBlanks(g: Bytes) {
    forall i :: 0 <= i < |g| ==> g[i] == 32 || g[i] == 9 || g[i] == 13 || g[i] == 10
  }

  predicate NoBlanks(w: Bytes) {
    forall i :: 0 <= i < |w| ==> w[i] != 32 && w[i] != 9 && w[i] != 13 && w[i] != 10
  }

  /** Words with a gap before, between and behind them; only the outer gaps may be empty. */
  predicate IsSpaced(gaps: seq<Bytes>, ws: seq<Bytes>) {
    && |gaps| == |ws| + 1
    && (forall i :: 0 <= i < |gaps| ==> AllBlanks(gaps[i]))
    && (forall i :: 0 < i < |ws| ==> gaps[i] != [])
    && (forall i :: 0 <= i < |ws| ==> ws[i] != [] && NoBlanks(ws[i]))
  }

  function Spaced(gaps: seq<Bytes>, ws: seq<Bytes>): Bytes
    requires |gaps| == |ws| + 1
  {
    if ws == [] then gaps[0] else gaps[0] + (ws[0] + Spaced(gaps[1..], ws[1..]))
  }

  lemma {:induction false} LeadingGap(g: Bytes, s: Bytes)
    requires AllBlanks(g)
    ensures Words(g + s) == Words(s)
    decreases |g|
  {
    if g == [] {
      assert g + s == s;
    } else {
      assert (g + s)[1..] == g[1..] + s;
      LeadingGap(g[1..], s);
    }
  }

  lemma {:induction false} SpacedWords(gaps: seq<Bytes>, ws: seq<Bytes>)
    requires IsSpaced(gaps, ws)
    ensures Words(Spaced(gaps, ws)) == ws
    decreases |ws|
  {
    hide Words;
    if ws == [] {
      LeadingGap(gaps[0], []);
      assert gaps[0] + [] == gaps[0];
      NoWords();
    } else {
      assert IsSpaced(gaps[1..], ws[1..]);
      SpacedWords(gaps[1..], ws[1..]);
      var rest := Spaced(gaps[1..], ws[1..]);
      LeadingGap(gaps[0], ws[0] + rest);
      SpacedStart(gaps, ws);
      FirstWord(ws[0], rest);
      assert [ws[0]] + ws[1..] == ws;
    }
  }

  /** What follows a word starts with a gap or is nothing. */
  lemma SpacedStart(gaps: seq<Bytes>, ws: seq<Bytes>)
    requires IsSpaced(gaps, ws) && ws != []
    ensures
      var rest := Spaced(gaps[1..], ws[1..]);
      IsWord(ws[0]) && (rest == [] || IsSpace(rest[0]))
  {
    var rest := Spaced(gaps[1..], ws[1..]);
    if |ws| > 1 || gaps[1] != [] {
      assert AllBlanks(gaps[1]);
      assert rest[0] == gaps[1][0];
    }
  }

  /** What trimming takes off the front. */
  lemma {:induction false} GapBefore(s: Bytes) returns (g: Bytes)
    ensures AllBlanks(g) && g + TrimStart(s) == s
    decreases |s|
  {
    if s != [] && IsSpace(s[0]) {
      var rest := GapBefore(s[1..]);
      var t := TrimStart(s[1..]);
      assert TrimStart(s) == t;
      hide TrimStart;
      g := [s[0]] + rest;
      assert [s[0]] + (rest + t) == s;
      assert g + t == [s[0]] + (rest + t);
    } else {
      g := [];
      assert [] + s == s;
    }
  }

  /** A line without words, or its first gap, its first word and the rest. */
  lemma WordsStep(s: Bytes) returns (g: Bytes, w: Bytes, rest: Bytes)
    ensures AllBlanks(g) && s == g + (w + rest)
    ensures w == [] ==> Words(s) == [] && s == g
    ensures w != [] ==> NoBlanks(w) && Words(s) == [w] + Words(rest)
    ensures rest != [] ==> IsSpace(rest[0])
    ensures rest == [] ==> Words(rest) == []
  {
    var t := TrimStart(s);
    var i := WordEnd(t);
    g := GapBefore(s);
    w, rest := t[..i], t[i..];
    NoWords();
    hide TrimStart, WordEnd, AllBlanks;
    assert w + rest == t;
    assert t == [] <==> w == [];
  }

  lemma GapFirst(s: Bytes, g: Bytes, w: Bytes, rest: Bytes)
    requires s == g + (w + rest) && w != [] && NoBlanks(w) && s != [] && IsSpace(s[0])
    ensures g != []
  {
  }

  lemma {:induction false} WordsSpaced(s: Bytes) returns (gaps: seq<Bytes>)
    ensures IsSpaced(gaps, Words(s)) && Spaced(gaps, Words(s)) == s
    ensures s != [] && IsSpace(s[0]) ==> gaps[0] != []
    decreases |s|
  {
    hide Words, AllBlanks, NoBlanks, IsSpace, Spaced, IsSpaced;
    var g, w, rest := WordsStep(s);
    if w == [] {
      gaps := [g];
      BlankSpaced(g);
    } else {
      var more := WordsSpaced(rest);
      gaps := [g] + more;
      SpacedLength(more, Words(rest));
      MoreSpaced(g, w, more, Words(rest), rest);
      if s != [] && IsSpace(s[0]) {
        GapFirst(s, g, w, rest);
      }
    }
  }

  lemma SpacedLength(gaps: seq<Bytes>, ws: seq<Bytes>)
    requires IsSpaced(gaps, ws)
    ensures |gaps| == |ws| + 1
  {
  }

  lemma BlankSpaced(g: Bytes)
    requires AllBlanks(g)
    ensures IsSpaced([g], []) && Spaced([g], []) == g
  {
  }

  lemma MoreSpaced(g: Bytes, w: Bytes, gaps: seq<Bytes>, ws: seq<Bytes>, rest: Bytes)
    requires AllBlanks(g) && w != [] && NoBlanks(w) && IsSpaced(gaps, ws) && Spaced(gaps, ws) == rest
    requires ws != [] ==> gaps[0] != []
    ensures IsSpaced([g] + gaps, [w] + ws) && Spaced([g] + gaps, [w] + ws) == g + (w + rest)
  {
    hide AllBlanks, NoBlanks;
    var gs, vs := [g] + gaps, [w] + ws;
    assert gs[1..] == gaps && vs[1..] == ws;
    hide Spaced;
    assert forall i :: 0 < i < |gs| ==> gs[i] == gaps[i - 1];
    assert forall i :: 0 < i < |vs| ==> vs[i] == ws[i - 1];
  }

  /** The words of a line are exactly the strings without blank, tab, CR and LF that such bytes
      separate. */
  lemma WordsExactly(s: Bytes, ws: seq<Bytes>)
    ensures Words(s) == ws <==> exists gaps: seq<Bytes> :: IsSpaced(gaps, ws) && Spaced(gaps, ws) == s
  {
    hide Words, Spaced;
    if Words(s) == ws {
      var gaps := WordsSpaced(s);
    }
    if gaps: seq<Bytes> :| IsSpaced(gaps, ws) && Spaced(gaps, ws) == s {
      SpacedWords(gaps, ws);
    }
  }

  /** The text a client types for a command. */
  function LineOf(c: Command): Bytes {
    Joined(ArgsOf(c))
  }

  /** A command that can be typed: its arguments are words. */
  predicate Typable(c: Command) {
    Sendable(c) && AllWords(ArgsOf(c))
  }

  lemma ArgsDoNotDiffer(c: Command)
    requires Sendable(c)
    ensures !LineDiffers(ArgsOf(c))
  {
    hide VerbOf, Itoa, TtlOption;
    VerbOfName(VerbFor(c));
    assert ArgsOf(c)[0] == NameOf(VerbFor(c));
  }

  /** The line of a command means that command to the simple parser. */
  lemma LineMeans(c: Command)
    requires Typable(c)
    ensures LineCommand(Words(LineOf(c))) == Ok(c)
  {
    hide LineCommand, CommandOf, ArgsOf, LineDiffers, Sendable, Words;
    WordsOfJoined(ArgsOf(c));
    LineIsArray(ArgsOf(c));
    CommandOfArgs(c);
    ArgsDoNotDiffer(c);
  }

  /** And to the fast one exactly when it is not a SET with a TTL, which that one refuses. */
  lemma FastLineMeans(c: Command)
    requires Typable(c)
    ensures BorrowedCommand(Words(LineOf(c))) == if c.Set? && c.ttl.Some? then Err(SyntaxError) else Ok(c)
  {
    hide LineCommand, CommandOf, Sendable, Words, ArgsOf, BorrowedCommand, Divergent;
    WordsOfJoined(ArgsOf(c));
    LineMeans(c);
    if c.Set? && c.ttl.Some? {
      FastRefusesTtl(c);
    } else {
      NotDivergent(c);
      CommandsAgree(ArgsOf(c));
    }
  }

  lemma FastRefusesTtl(c: Command)
    requires c.Set? && c.ttl.Some?
    ensures BorrowedCommand(ArgsOf(c)) == Err(SyntaxError)
  {
    VerbOfName(VSet);
    hide VerbOf, Itoa;
    assert ArgsOf(c)[1..] == [c.key, c.value, PX, Itoa(c.ttl.value / MILLI)];
  }

  lemma NotDivergent(c: Command)
    requires Sendable(c) && !(c.Set? && c.ttl.Some?)
    ensures !Divergent(ArgsOf(c))
  {
    VerbOfName(VerbFor(c));
    assert ArgsOf(c)[0] == NameOf(VerbFor(c));
    hide VerbOf;
    if c.Expire? {
      DigitsOnly(c.seconds);
      assert ArgsOf(c)[1..] == [c.key, Itoa(c.seconds)];
    } else if c.Set? {
      assert ArgsOf(c)[1..] == [c.key, c.value];
    }
    hide Itoa;
  }

  lemma DigitsOnly(n: nat)
    requires n < TWO64
    ensures !SecondsDiverge(Itoa(n))
  {
    assert IsDigit(Itoa(n)[0]);
    hide Itoa;
  }

  /** The whole line with its end, through the parsers' frames, whatever follows. */
  lemma TypedLineParses(c: Command, z: Bytes)
    requires Typable(c)
    ensures LF !in LineOf(c) && CR !in LineOf(c)
    ensures ParseInline(LineOf(c) + CRLF + z) == Complete(|LineOf(c)| + 2, c)
    ensures !(c.Set? && c.ttl.Some?) ==> BorrowedFrame(LineOf(c) + CRLF + z) == Complete(|LineOf(c)| + 2, c)
  {
    hide LineCommand, BorrowedCommand, ArgsOf, Sendable, Words, Joined;
    var t := LineOf(c);
    NoLineEnds(ArgsOf(c));
    LineMeans(c);
    FastLineMeans(c);
    var buf := t + CRLF + z;
    assert forall i :: 0 <= i < |t| ==> buf[i] == t[i];
    assert buf[|t|] == CR && buf[|t| + 1] == LF;
    assert Find(buf, 0, LF) == |t| + 1 && LineBreak(buf) == |t|;
    assert buf[..|t|] == t && buf[..|t| + 1] == t + [CR];
    WordsSnocSpace(t, CR);
  }

  lemma {:induction false} NoLineEnds(ws: seq<Bytes>)
    requires AllWords(ws)
    ensures LF !in Joined(ws) && CR !in Joined(ws)
    decreases |ws|
  {
    if ws != [] {
      assert IsWord(ws[0]);
      NoLineEnds(ws[1..]);
    }
  }
}
