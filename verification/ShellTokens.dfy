/** Cutting a shell meta-command line into arguments, in place, and the law that
    printed strings come back as the arguments they were printed from. */
module ShellTokens {
  import opened Basics
  import opened CString

  const MAX_ARGS: nat := 50

  predicate IsSpace(c: Byte) { c == SPACE || TAB <= c <= CR }

  // ------------------------------------------------------------ specification

  /** How many blanks the line starts with. */
  function Blanks(s: Bytes): (k: nat)
    ensures k <= |s|
    ensures k < |s| ==> !IsSpace(s[k])
  {
    if s != [] && IsSpace(s[0]) then 1 + Blanks(s[1..]) else 0
  }

  /** Length of an unquoted word. */
  function WordLength(s: Bytes): (k: nat)
    ensures k <= |s|
  {
    if s != [] && !IsSpace(s[0]) then 1 + WordLength(s[1..]) else 0
  }

  /** Length of a quoted text up to its closing quote; inside double quotes a
      backslash keeps the next byte from closing. */
  function QuoteLength(s: Bytes, delim: Byte): (k: nat)
    ensures k <= |s|
    decreases |s|
  {
    if s == [] || s[0] == delim then 0
    else if s[0] == BACKSLASH && delim == DQUOTE && |s| > 1 then 2 + QuoteLength(s[2..], delim)
    else 1 + QuoteLength(s[1..], delim)
  }

  /** Where the first argument lies: its text, and where reading goes on. */
  datatype Cut = Cut(lo: nat, hi: nat, next: nat, literal: bool)

  function Rest(s: Bytes, hi: nat): nat { if hi < |s| then hi + 1 else hi }

  function FirstCut(s: Bytes): (c: Cut)
    requires Blanks(s) < |s|
    ensures c.lo <= c.hi <= c.next <= |s| && 0 < c.next && (c.hi < |s| ==> c.next == c.hi + 1)
    ensures c.hi == |s| ==> c.next == |s|
  {
    var b := Blanks(s);
    if s[b] == SQUOTE || s[b] == DQUOTE then
      var hi := b + 1 + QuoteLength(s[b + 1..], s[b]);
      Cut(b + 1, hi, Rest(s, hi), s[b] == SQUOTE)
    else
      var hi := b + WordLength(s[b..]);
      Cut(b, hi, Rest(s, hi), false)
  }

  /** Every argument that is unescaped can be. */
  predicate WellEscaped(s: Bytes, slots: nat)
    decreases slots
  {
    slots == 0 || Blanks(s) == |s| ||
    var c := FirstCut(s);
    (c.literal || Resolvable(s[c.lo..c.hi])) && WellEscaped(s[c.next..], slots - 1)
  }

  function TextOf(s: Bytes, c: Cut): Bytes
    requires c.lo <= c.hi <= |s|
  {
    if c.literal then s[c.lo..c.hi] else Resolve(s[c.lo..c.hi])
  }

  /** The arguments of a line. */
  function Tokens(s: Bytes, slots: nat): (ts: seq<Bytes>)
    ensures |ts| <= slots
    decreases slots
  {
    if slots == 0 || Blanks(s) == |s| then []
    else
      var c := FirstCut(s);
      [TextOf(s, c)] + Tokens(s[c.next..], slots - 1)
  }

  // --------------------------------------------------------------- round trip

  lemma {:induction false} SkipPlain(c: Byte, rest: Bytes)
    requires c != DQUOTE && c != BACKSLASH
    ensures QuoteLength([c] + rest, DQUOTE) == 1 + QuoteLength(rest, DQUOTE)
  {
    assert ([c] + rest)[1..] == rest;
  }

  lemma {:induction false} SkipFour(e: Bytes, rest: Bytes)
    requires |e| == 4 && e[0] == BACKSLASH && e[2] != DQUOTE && e[2] != BACKSLASH && e[3] != DQUOTE && e[3] != BACKSLASH
    ensures QuoteLength(e + rest, DQUOTE) == 4 + QuoteLength(rest, DQUOTE)
  {
    var s := e + rest;
    SkipPlain(e[3], rest);
    SkipPlain(e[2], [e[3]] + rest);
    assert s[2..] == [e[2]] + ([e[3]] + rest);
  }

  lemma {:induction false} SkipEscaped(c: Byte, printable: Byte -> bool, rest: Bytes)
    requires c != 0
    ensures QuoteLength(Escape(c, printable) + rest, DQUOTE) == |Escape(c, printable)| + QuoteLength(rest, DQUOTE)
  {
    var e := Escape(c, printable);
    var s := e + rest;
    if |e| == 4 {
      OctalDigits(c);
      SkipFour(e, rest);
    } else if |e| == 2 {
      assert s[2..] == rest;
    } else {
      assert s[1..] == rest;
    }
  }

  /** The tokenizer finds the closing quote the printer wrote. */
  lemma {:induction false} FindsClosingQuote(s: Bytes, printable: Byte -> bool, rest: Bytes)
    requires NoNul(s)
    ensures QuoteLength(EscapeAll(s, printable) + [DQUOTE] + rest, DQUOTE) == |EscapeAll(s, printable)|
  {
    if s == [] {
      assert [] + [DQUOTE] + rest == [DQUOTE] + rest;
    } else {
      var e, more := Escape(s[0], printable), EscapeAll(s[1..], printable);
      FindsClosingQuote(s[1..], printable, rest);
      SkipEscaped(s[0], printable, more + [DQUOTE] + rest);
      assert EscapeAll(s, printable) + [DQUOTE] + rest == e + (more + [DQUOTE] + rest);
    }
  }

  /** Printed strings, each after a blank. */
  function Arguments(ss: seq<Bytes>, printable: Byte -> bool): Bytes
  {
    if ss == [] then [] else [SPACE] + Quoted(ss[0], printable) + Arguments(ss[1..], printable)
  }

  lemma {:induction false} FirstPrinted(s: Bytes, printable: Byte -> bool, rest: Bytes)
    requires NoNul(s)
    ensures var line := [SPACE] + Quoted(s, printable) + rest;
            var n := |EscapeAll(s, printable)|;
            && Blanks(line) == 1
            && FirstCut(line) == Cut(2, 2 + n, 3 + n, false)
            && line[2..2 + n] == EscapeAll(s, printable)
            && line[3 + n..] == rest
  {
    var text := EscapeAll(s, printable);
    var line := [SPACE] + Quoted(s, printable) + rest;
    assert line == [SPACE, DQUOTE] + text + [DQUOTE] + rest;
    assert line[1..][0] == DQUOTE && Blanks(line[1..]) == 0;
    assert line[2..] == text + [DQUOTE] + rest;
    FindsClosingQuote(s, printable, rest);
  }

  /** Reading a line that starts with a printed string. */
  lemma {:induction false} ReadsFirstPrinted(s: Bytes, printable: Byte -> bool, rest: Bytes, slots: nat)
    requires NoNul(s) && slots > 0
    ensures var line := [SPACE] + Quoted(s, printable) + rest;
            && Tokens(line, slots) == [s] + Tokens(rest, slots - 1)
            && (WellEscaped(rest, slots - 1) ==> WellEscaped(line, slots))
  {
    FirstPrinted(s, printable, rest);
    ResolveUndoesEscape(s, printable);
  }

  lemma {:induction false} NothingToRead(slots: nat)
    ensures WellEscaped([], slots) && Tokens([], slots) == []
  {
  }

  /** Printing NUL-free strings and reading the line back gives the strings: each
      closing quote is found, and every escape, octal ones included, is undone. */
  lemma {:induction false} PrintedArgumentsReadBack(ss: seq<Bytes>, printable: Byte -> bool, slots: nat)
    requires |ss| <= slots && forall i :: 0 <= i < |ss| ==> NoNul(ss[i])
    ensures WellEscaped(Arguments(ss, printable), slots)
    ensures Tokens(Arguments(ss, printable), slots) == ss
  {
    hide FirstCut, Tokens, WellEscaped, Blanks, Quoted;
    if ss == [] {
      NothingToRead(slots);
    } else {
      PrintedArgumentsReadBack(ss[1..], printable, slots - 1);
      ReadsFirstPrinted(ss[0], printable, Arguments(ss[1..], printable), slots);
      assert ss == [ss[0]] + ss[1..];
    }
  }

  /** Blank, tab, line feed, vertical tab, form feed or carriage return. */
  predicate IsWhite(c: Byte) { c == 32 || c == 9 || c == 10 || c == 11 || c == 12 || c == 13 }

  /** A command word: nothing in it needs quoting. */
  predicate IsWord(w: Bytes)
  {
    && w != [] && w[0] != DQUOTE && w[0] != SQUOTE
    && forall i :: 0 <= i < |w| ==> !IsWhite(w[i]) && w[i] != BACKSLASH && w[i] != 0
  }

  /** A command word and its printed arguments. */
  function CommandLine(word: Bytes, ss: seq<Bytes>, printable: Byte -> bool): Bytes
  {
    word + Arguments(ss, printable)
  }

  lemma {:induction false} LeadingBlank(c: Byte, s: Bytes, slots: nat)
    requires IsWhite(c)
    ensures Tokens([c] + s, slots) == Tokens(s, slots)
    ensures WellEscaped([c] + s, slots) <==> WellEscaped(s, slots)
  {
    hide FirstCut, QuoteLength, WordLength, Resolve, Resolvable;
    var t := [c] + s;
    assert t[1..] == s;
    assert Blanks(t) == 1 + Blanks(s);
    if Blanks(s) < |s| {
      LeadingBlankCut(c, s);
      var c, d := FirstCut(s), FirstCut(t);
      assert t[d.lo..d.hi] == s[c.lo..c.hi] && t[d.next..] == s[c.next..];
    }
  }

  lemma {:induction false} LeadingBlankCut(c: Byte, s: Bytes)
    requires Blanks(s) < |s| && Blanks([c] + s) == 1 + Blanks(s)
    ensures var f := FirstCut(s); FirstCut([c] + s) == Cut(f.lo + 1, f.hi + 1, f.next + 1, f.literal)
  {
    var b, t := Blanks(s), [c] + s;
    assert t[b + 1..] == s[b..] && t[b + 2..] == s[b + 1..];
  }

  /** Inside single quotes nothing is undone: the text up to the next single quote, or
      to the end of the line, is the argument as it stands. */
  lemma {:induction false} SingleQuotedIsLiteral(t: Bytes, rest: Bytes, slots: nat)
    requires slots > 0 && forall i :: 0 <= i < |t| ==> t[i] != 39
    ensures Tokens([39] + t + [39] + rest, slots) == [t] + Tokens(rest, slots - 1)
    ensures Tokens([39] + t, slots) == [t]
  {
    hide Tokens;
    assert [39] + t + [39] + rest == [39] + t + ([39] + rest) && ([39] + rest)[1..] == rest;
    LiteralIsFirst(t, [39] + rest, slots);
    assert [39] + t == [39] + t + [];
    LiteralIsFirst(t, [], slots);
    NothingToRead(slots - 1);
  }

  lemma {:induction false} LiteralIsFirst(t: Bytes, tail: Bytes, slots: nat)
    requires slots > 0 && (forall i :: 0 <= i < |t| ==> t[i] != 39) && (tail == [] || tail[0] == 39)
    ensures Tokens([39] + t + tail, slots) == [t] + Tokens(if tail == [] then [] else tail[1..], slots - 1)
  {
    hide QuoteLength, Resolve;
    var line := [39] + t + tail;
    LiteralEnds(t, tail);
    assert line[1..] == t + tail && Blanks(line) == 0;
    var c := FirstCut(line);
    assert c.lo == 1 && c.hi == 1 + |t| && c.literal;
    assert line[c.lo..c.hi] == t;
    assert line[c.next..] == if tail == [] then [] else tail[1..];
  }

  lemma {:induction false} LiteralEnds(t: Bytes, rest: Bytes)
    requires (forall i :: 0 <= i < |t| ==> t[i] != 39) && (rest == [] || rest[0] == 39)
    ensures QuoteLength(t + rest, 39) == |t|
  {
    if t == [] {
      assert t + rest == rest;
    } else {
      assert (t + rest)[1..] == t[1..] + rest;
      LiteralEnds(t[1..], rest);
    }
  }

  lemma {:induction false} PlainResolves(w: Bytes)
    requires forall i :: 0 <= i < |w| ==> w[i] != BACKSLASH
    ensures Resolvable(w) && Resolve(w) == w
  {
    if w != [] {
      PlainResolves(w[1..]);
      assert w == [w[0]] + w[1..];
    }
  }

  lemma {:induction false} WordEnds(w: Bytes, rest: Bytes)
    requires (forall i :: 0 <= i < |w| ==> !IsWhite(w[i])) && (rest == [] || IsWhite(rest[0]))
    ensures WordLength(w + rest) == |w|
  {
    if w == [] {
      assert w + rest == rest;
    } else {
      assert (w + rest)[1..] == w[1..] + rest;
      WordEnds(w[1..], rest);
    }
  }

  lemma {:induction false} WordIsFirst(word: Bytes, rest: Bytes, slots: nat)
    requires IsWord(word) && slots > 0 && (rest == [] || IsWhite(rest[0]))
    ensures var more := if rest == [] then [] else rest[1..];
            && Tokens(word + rest, slots) == [word] + Tokens(more, slots - 1)
            && (WellEscaped(word + rest, slots) <==> WellEscaped(more, slots - 1))
  {
    var line := word + rest;
    assert line[0] == word[0] && Blanks(line) == 0 && line[0..] == line;
    WordEnds(word, rest);
    PlainResolves(word);
    var c := FirstCut(line);
    assert line[c.lo..c.hi] == word;
    assert line[c.next..] == if rest == [] then [] else rest[1..];
  }

  /** A command word and printed strings read back as that word and those strings. */
  lemma {:induction false} CommandLineReadsBack(word: Bytes, ss: seq<Bytes>, printable: Byte -> bool, slots: nat)
    requires IsWord(word) && |ss| < slots && forall i :: 0 <= i < |ss| ==> NoNul(ss[i])
    ensures WellEscaped(CommandLine(word, ss, printable), slots)
    ensures Tokens(CommandLine(word, ss, printable), slots) == [word] + ss
  {
    hide FirstCut, Tokens, WellEscaped, Blanks, Quoted, IsWord;
    var rest := Arguments(ss, printable);
    PrintedArgumentsReadBack(ss, printable, slots - 1);
    WordIsFirst(word, rest, slots);
    if rest != [] {
      assert rest == [SPACE] + rest[1..];
      LeadingBlank(SPACE, rest[1..], slots - 1);
    }
  }

  lemma {:induction false} PrintedHasNoNul(s: Bytes, printable: Byte -> bool)
    requires NoNul(s)
    ensures NoNul(EscapeAll(s, printable))
  {
    if s != [] {
      PrintedHasNoNul(s[1..], printable);
      OctalDigits(s[0]);
      assert NoNul(Escape(s[0], printable));
    }
  }

  lemma {:induction false} ArgumentsHaveNoNul(ss: seq<Bytes>, printable: Byte -> bool)
    requires forall i :: 0 <= i < |ss| ==> NoNul(ss[i])
    ensures NoNul(Arguments(ss, printable))
  {
    if ss != [] {
      PrintedHasNoNul(ss[0], printable);
      ArgumentsHaveNoNul(ss[1..], printable);
    }
  }

  // --------------------------------------------- the line as it is cut, in place

  ghost predicate HasNul(b: Bytes, i: nat) { exists m :: i <= m < |b| && b[m] == 0 }

  /** Where the string starting at `i` ends. */
  ghost function FirstNul(b: Bytes, i: nat): (n: nat)
    requires HasNul(b, i)
    ensures i <= n < |b| && b[n] == 0 && NoNul(b[i..n])
    decreases |b| - i
  {
    if b[i] == 0 then i
    else
      var n := FirstNul(b, i + 1);
      assert b[i..n] == [b[i]] + b[i + 1..n];
      n
  }

  lemma {:induction false} FirstNulIs(b: Bytes, i: nat, n: nat)
    requires i <= n < |b| && b[n] == 0 && NoNul(b[i..n])
    ensures HasNul(b, i) && FirstNul(b, i) == n
    decreases n - i
  {
    if i < n {
      assert b[i] == b[i..n][0] && b[i + 1..n] == b[i..n][1..];
      FirstNulIs(b, i + 1, n);
    }
  }

  /** The string starting at `i`. */
  ghost function StringAt(b: Bytes, i: nat): (s: Bytes)
    requires HasNul(b, i)
    ensures NoNul(s) && i + |s| < |b|
  {
    b[i..FirstNul(b, i)]
  }

  /** One turn of the tokenizer on the buffer: no further argument, reading left
      the buffer, or an argument taken. */
  datatype Turn = NoMore | LeftBuffer | Took(arg: nat, line: Bytes, next: nat)

  /** The buffer once the argument's end is marked. */
  ghost function Terminated(b: Bytes, i: nat): (r: Bytes)
    requires HasNul(b, i) && Blanks(StringAt(b, i)) < |StringAt(b, i)|
    ensures |r| == |b|
  {
    b[i + FirstCut(StringAt(b, i)).hi := 0]
  }

  ghost function TakeOne(b: Bytes, i: nat): (t: Turn)
    requires HasNul(b, i)
    ensures t.Took? ==> |t.line| == |b| && i < t.next && HasNul(t.line, t.next)
  {
    var s := StringAt(b, i);
    if Blanks(s) == |s| then NoMore
    else
      var c, b1 := FirstCut(s), Terminated(b, i);
      TakenHasNul(b, i);
      if c.literal then Took(i + c.lo, b1, i + c.next)
      else
        match SweepFrom(b1, i + c.lo)
        case OffBuffer => LeftBuffer
        case Stopped(text, _) => Took(i + c.lo, Overwritten(b1, i + c.lo, text), i + c.next)
  }

  /** The argument is a string of its own in the terminated buffer. */
  lemma {:induction false} CutIsString(b: Bytes, i: nat)
    requires HasNul(b, i) && Blanks(StringAt(b, i)) < |StringAt(b, i)|
    ensures var c, b1 := FirstCut(StringAt(b, i)), Terminated(b, i);
            && b1[i + c.hi] == 0
            && b1[i + c.lo..i + c.hi] == StringAt(b, i)[c.lo..c.hi]
            && NoNul(b1[i + c.lo..i + c.hi])
  {
    hide FirstCut, Blanks;
    var s := StringAt(b, i);
    var c, b1 := FirstCut(s), Terminated(b, i);
    assert forall k :: c.lo <= k < c.hi ==> b1[i + k] == s[k];
  }

  /** Whatever the sweep of an argument did, the tokenizer still has a string to
      go on with. */
  lemma {:induction false} TakenHasNul(b: Bytes, i: nat)
    requires HasNul(b, i) && Blanks(StringAt(b, i)) < |StringAt(b, i)|
    ensures var c, b1 := FirstCut(StringAt(b, i)), Terminated(b, i);
            var w := SweepFrom(b1, i + c.lo);
            && HasNul(b1, i + c.next)
            && (w.Stopped? ==> HasNul(Overwritten(b1, i + c.lo, w.text), i + c.next))
  {
    hide FirstCut, Blanks, SweepFrom;
    var s, n := StringAt(b, i), FirstNul(b, i);
    var c, b1 := FirstCut(s), Terminated(b, i);
    assert b1[n] == 0;
    var w := SweepFrom(b1, i + c.lo);
    CutIsString(b, i);
    SweepInsideIff(b1, i + c.lo, i + c.hi);
    if w.Stopped? {
      var line := Overwritten(b1, i + c.lo, w.text);
      if w.at == i + c.hi { assert line[n] == 0; } else { assert line[w.at] == 0; }
    }
  }

  /** The outcome of cutting a line: its final bytes and where the arguments are. */
  datatype Cutting = Lost | Done(line: Bytes, args: seq<nat>)

  ghost function Prepend(args: seq<nat>, c: Cutting): Cutting
  {
    if c.Lost? then Lost else Done(c.line, args + c.args)
  }

  ghost function CutLine(b: Bytes, i: nat, slots: nat): Cutting
    requires HasNul(b, i)
    decreases slots
  {
    if slots == 0 then Done(b, [])
    else
      match TakeOne(b, i)
      case NoMore => Done(b, [])
      case LeftBuffer => Lost
      case Took(arg, line, next) => Prepend([arg], CutLine(line, next, slots - 1))
  }

  /** The argument text stands at `arg`, terminated. */
  predicate Stands(line: Bytes, arg: nat, text: Bytes)
  {
    && arg + |text| < |line| && line[arg + |text|] == 0
    && forall k :: 0 <= k < |text| ==> line[arg + k] == text[k]
  }

  // ------------------------------------- exactly when arguments stay apart

  /** Undoing the escapes of the next argument stays inside that argument. */
  ghost predicate ArgumentInside(b: Bytes, i: nat)
    requires HasNul(b, i) && Blanks(StringAt(b, i)) < |StringAt(b, i)|
  {
    var c, w := FirstCut(StringAt(b, i)), SweepFrom(Terminated(b, i), i + FirstCut(StringAt(b, i)).lo);
    c.literal || (w.Stopped? && w.at == i + c.hi)
  }

  /** ... and so for every argument of the line. */
  ghost predicate StaysInside(b: Bytes, i: nat, slots: nat)
    requires HasNul(b, i)
    decreases slots
  {
    slots == 0 ||
    match TakeOne(b, i)
    case NoMore => true
    case LeftBuffer => false
    case Took(_, line, next) => ArgumentInside(b, i) && StaysInside(line, next, slots - 1)
  }

  /** An argument is kept inside if and only if it is single-quoted or ends with an
      even number of backslashes. */
  lemma {:induction false} ArgumentInsideIff(b: Bytes, i: nat)
    requires HasNul(b, i) && Blanks(StringAt(b, i)) < |StringAt(b, i)|
    ensures var c := FirstCut(StringAt(b, i));
            var raw := StringAt(b, i)[c.lo..c.hi];
            && (ArgumentInside(b, i) <==> c.literal || TrailingBackslashes(raw) % 2 == 0)
            && (ArgumentInside(b, i) <==> c.literal || Resolvable(raw))
            && (!c.literal && Resolvable(raw) ==>
                 SweepFrom(Terminated(b, i), i + c.lo) == Stopped(Resolve(raw), i + c.hi))
  {
    hide FirstCut, Blanks, SweepFrom, TrailingBackslashes, Resolvable, Resolve, StringAt;
    var c := FirstCut(StringAt(b, i));
    CutIsString(b, i);
    SweepInsideIff(Terminated(b, i), i + c.lo, i + c.hi);
    ResolvableIffEven(StringAt(b, i)[c.lo..c.hi]);
  }

  /** An argument kept inside: its text stands where it was, everything before it
      and the rest of the line are as they were. */
  lemma {:induction false} TakesInside(b: Bytes, i: nat)
    requires HasNul(b, i) && Blanks(StringAt(b, i)) < |StringAt(b, i)| && ArgumentInside(b, i)
    ensures var s := StringAt(b, i);
            var c, t := FirstCut(s), TakeOne(b, i);
            && t.Took? && t.arg == i + c.lo && t.next == i + c.next
            && Stands(t.line, t.arg, TextOf(s, c)) && |TextOf(s, c)| <= c.hi - c.lo
            && (forall k :: 0 <= k < |b| && !(i <= k < t.next) ==> t.line[k] == b[k])
  {
    hide FirstCut, Blanks, StringAt, Stands, ArgumentInside, TakeOne, LineAfter, TextOf;
    TakesLineAfter(b, i);
    TextStands(b, i);
    RestUntouched(b, i);
  }

  /** The buffer once the argument is finished. */
  ghost function LineAfter(b: Bytes, i: nat): (line: Bytes)
    requires HasNul(b, i) && Blanks(StringAt(b, i)) < |StringAt(b, i)|
    ensures |line| == |b|
  {
    var s := StringAt(b, i);
    var c := FirstCut(s);
    if c.literal then Terminated(b, i) else Overwritten(Terminated(b, i), i + c.lo, Resolve(s[c.lo..c.hi]))
  }

  lemma {:induction false} TakesLineAfter(b: Bytes, i: nat)
    requires HasNul(b, i) && Blanks(StringAt(b, i)) < |StringAt(b, i)| && ArgumentInside(b, i)
    ensures var c := FirstCut(StringAt(b, i)); TakeOne(b, i) == Took(i + c.lo, LineAfter(b, i), i + c.next)
  {
    hide FirstCut, Blanks, SweepFrom, Resolvable, Resolve, StringAt, ArgumentInside, Terminated;
    ArgumentInsideIff(b, i);
  }

  lemma {:induction false} TextStands(b: Bytes, i: nat)
    requires HasNul(b, i) && Blanks(StringAt(b, i)) < |StringAt(b, i)|
    ensures var s := StringAt(b, i);
            var c := FirstCut(s);
            Stands(LineAfter(b, i), i + c.lo, TextOf(s, c)) && |TextOf(s, c)| <= c.hi - c.lo
  {
    hide FirstCut, Blanks, Resolve, StringAt, Stands, Terminated, Overwritten, FirstNul, NoNul;
    CutIsString(b, i);
    var s := StringAt(b, i);
    var c, b1 := FirstCut(s), Terminated(b, i);
    if c.literal {
      SliceStands(b1, i + c.lo, i + c.hi);
    } else {
      WrittenStands(b1, i + c.lo, Resolve(s[c.lo..c.hi]));
    }
  }

  lemma {:induction false} RestUntouched(b: Bytes, i: nat)
    requires HasNul(b, i) && Blanks(StringAt(b, i)) < |StringAt(b, i)|
    ensures var next := i + FirstCut(StringAt(b, i)).next;
            forall k :: 0 <= k < |b| && !(i <= k < next) ==> LineAfter(b, i)[k] == b[k]
  {
    hide FirstCut, Blanks, Resolve, StringAt;
    var s := StringAt(b, i);
    var c, b1 := FirstCut(s), Terminated(b, i);
    StringLength(b, i);
    assert c.hi == |s| ==> b[i + c.hi] == 0;
    assert forall k :: 0 <= k < |b| && !(i <= k < i + c.next) ==> b1[k] == b[k];
  }

  lemma {:induction false} SliceStands(b: Bytes, lo: nat, hi: nat)
    requires lo <= hi < |b| && b[hi] == 0
    ensures Stands(b, lo, b[lo..hi])
  {
    var raw := b[lo..hi];
    forall k | 0 <= k < |raw| ensures b[lo + k] == raw[k] {}
  }

  lemma {:induction false} WrittenStands(b: Bytes, lo: nat, text: Bytes)
    requires lo + |text| < |b|
    ensures Stands(Overwritten(b, lo, text), lo, text)
  {
    var line := Overwritten(b, lo, text);
    forall k | 0 <= k < |text| ensures line[lo + k] == text[k] {}
  }

  lemma {:induction false} StringLength(b: Bytes, i: nat)
    requires HasNul(b, i)
    ensures i + |StringAt(b, i)| == FirstNul(b, i)
  {
  }

  /** After an argument kept inside, the rest of the line is still to be read. */
  lemma {:induction false} RestIsKept(b: Bytes, i: nat, line: Bytes, next: nat)
    requires HasNul(b, i) && |line| == |b| && i <= next <= FirstNul(b, i)
    requires forall k :: next <= k < |b| ==> line[k] == b[k]
    ensures HasNul(line, next) && FirstNul(line, next) == FirstNul(b, i)
    ensures StringAt(line, next) == StringAt(b, i)[next - i..]
  {
    hide FirstNul;
    var n := FirstNul(b, i);
    NoNulFrom(b, i, next, n);
    assert line[next..n] == b[next..n] == b[i..n][next - i..];
    FirstNulIs(line, next, n);
  }

  /** The tokenizer keeps every argument to itself if and only if no argument whose
      escapes are undone ends with a dangling backslash. */
  lemma {:induction false} StaysInsideIff(b: Bytes, i: nat, slots: nat)
    requires HasNul(b, i)
    ensures StaysInside(b, i, slots) <==> WellEscaped(StringAt(b, i), slots)
    decreases slots
  {
    hide FirstCut, Blanks, StringAt, Resolvable, TakeOne, ArgumentInside;
    if slots > 0 {
      var s := StringAt(b, i);
      TurnShape(b, i);
      if Blanks(s) < |s| {
        ArgumentInsideIff(b, i);
        if ArgumentInside(b, i) {
          TakesInside(b, i);
          StringLength(b, i);
          var t := TakeOne(b, i);
          RestIsKept(b, i, t.line, t.next);
          StaysInsideIff(t.line, t.next, slots - 1);
        }
      }
    }
  }

  lemma {:induction false} TurnShape(b: Bytes, i: nat)
    requires HasNul(b, i)
    ensures TakeOne(b, i).NoMore? <==> Blanks(StringAt(b, i)) == |StringAt(b, i)|
  {
  }

  /** A line without dangling backslashes is cut into exactly the arguments it
      means, each standing terminated in the line. */
  lemma {:induction false} CutsWhatIsMeant(b: Bytes, i: nat, slots: nat)
    requires HasNul(b, i) && WellEscaped(StringAt(b, i), slots)
    ensures var texts, cutting := Tokens(StringAt(b, i), slots), CutLine(b, i, slots);
            && cutting.Done? && |cutting.line| == |b| && |cutting.args| == |texts|
            && (forall k :: 0 <= k < |texts| ==> Stands(cutting.line, cutting.args[k], texts[k]))
            && (forall k :: 0 <= k < i ==> cutting.line[k] == b[k])
            && (texts == [] ==> cutting.line == b)
    decreases slots
  {
    hide FirstCut, Blanks, StringAt, Resolvable, Resolve, TakeOne, ArgumentInside, Stands, TextOf;
    NothingLeft(StringAt(b, i), slots);
    if slots > 0 {
      var s := StringAt(b, i);
      NextToken(s, slots);
      TurnShape(b, i);
      if Blanks(s) < |s| {
        ArgumentInsideIff(b, i);
        TakesInside(b, i);
        StringLength(b, i);
        var t := TakeOne(b, i);
        RestIsKept(b, i, t.line, t.next);
        CutsWhatIsMeant(t.line, t.next, slots - 1);
        var rest := CutLine(t.line, t.next, slots - 1);
        if t.line[t.next] == 0 { NothingThere(t.line, t.next, slots - 1); }
        StillStands(t.line, rest.line, t.arg, TextOf(s, FirstCut(s)), t.next);
        assert CutLine(b, i, slots) == Done(rest.line, [t.arg] + rest.args);
      }
    }
  }

  /** The arguments cut later do not touch the first one. */
  lemma {:induction false} StillStands(line: Bytes, later: Bytes, arg: nat, text: Bytes, next: nat)
    requires Stands(line, arg, text) && |later| == |line| && next <= |line|
    requires later == line || (arg + |text| < next && forall k :: 0 <= k < next ==> later[k] == line[k])
    ensures Stands(later, arg, text)
  {
  }

  lemma {:induction false} NothingThere(b: Bytes, i: nat, slots: nat)
    requires HasNul(b, i) && b[i] == 0
    ensures CutLine(b, i, slots) == Done(b, [])
  {
    assert StringAt(b, i) == [];
  }

  /** The round trip through the buffer: strings printed after a command word and
      cut in place stand in the line as they were, whatever follows the line. */
  lemma {:induction false} PrintedLineIsCut(word: Bytes, ss: seq<Bytes>, printable: Byte -> bool, after: Bytes)
    requires IsWord(word) && |ss| < 50 && forall i :: 0 <= i < |ss| ==> NoNul(ss[i])
    ensures var b := [DOT] + CommandLine(word, ss, printable) + [0] + after;
            && HasNul(b, 1)
            && var cutting := CutLine(b, 1, MAX_ARGS);
               && cutting.Done? && |cutting.args| == 1 + |ss|
               && Stands(cutting.line, cutting.args[0], word)
               && forall k :: 0 <= k < |ss| ==> Stands(cutting.line, cutting.args[k + 1], ss[k])
  {
    hide WellEscaped, Tokens, CutLine, Stands, Arguments;
    var line := CommandLine(word, ss, printable);
    var b := [DOT] + line + [0] + after;
    ArgumentsHaveNoNul(ss, printable);
    var n := 1 + |line|;
    assert b[1..n] == line && b[n] == 0;
    FirstNulIs(b, 1, n);
    CommandLineReadsBack(word, ss, printable, MAX_ARGS);
    CutsWhatIsMeant(b, 1, MAX_ARGS);
    var texts := [word] + ss;
    forall k | 0 <= k < |ss| ensures texts[k + 1] == ss[k] {}
  }

  const LOWER_A: Byte := 97
  const LOWER_B: Byte := 98

  /** A dangling backslash loses arguments: on the line `.a\ b`, undoing the first
      argument steps over its terminator and pulls the second one down, and the
      tokenizer goes on at a terminator. Two arguments are meant, one is found. */
  lemma {:induction false} DanglingBackslashLosesArgument()
    ensures var b := [DOT, LOWER_A, BACKSLASH, SPACE, LOWER_B, 0];
            && HasNul(b, 1) && Tokens(StringAt(b, 1), MAX_ARGS) == [[LOWER_A], [LOWER_B]]
            && CutLine(b, 1, MAX_ARGS) == Done([DOT, LOWER_A, 0, LOWER_B, 0, 0], [1])
  {
    hide Tokens, FirstCut, Blanks, SweepFrom, Unescape;
    var b := [DOT, LOWER_A, BACKSLASH, SPACE, LOWER_B, 0];
    var s := [LOWER_A, BACKSLASH, SPACE, LOWER_B];
    assert b[1..5] == s;
    FirstNulIs(b, 1, 5);
    DanglingCut();
    DanglingSweep();
    var b1 := Terminated(b, 1);
    assert b1 == [DOT, LOWER_A, BACKSLASH, 0, LOWER_B, 0];
    var line := Overwritten(b1, 1, [LOWER_A, 0, LOWER_B]);
    assert line == [DOT, LOWER_A, 0, LOWER_B, 0, 0];
    assert TakeOne(b, 1) == Took(1, line, 4);
    NothingThere(line, 4, MAX_ARGS - 1);
  }

  lemma {:induction false} DanglingCut()
    ensures var s := [LOWER_A, BACKSLASH, SPACE, LOWER_B];
            && Blanks(s) == 0 && FirstCut(s) == Cut(0, 2, 3, false)
            && Tokens(s, MAX_ARGS) == [[LOWER_A], [LOWER_B]]
  {
    var s := [LOWER_A, BACKSLASH, SPACE, LOWER_B];
    assert s[1..][1..][0] == SPACE && WordLength(s[1..][1..]) == 0;
    assert WordLength(s[1..]) == 1 && WordLength(s) == 2 && s[0..] == s;
    var c := FirstCut(s);
    assert s[0..2] == [LOWER_A, BACKSLASH] && s[0..2][1..] == [BACKSLASH];
    assert Resolve(s[0..2]) == [LOWER_A];
    var rest := s[3..];
    assert rest == [LOWER_B] && rest[1..] == [] && rest[0..] == rest;
    assert WordLength(rest) == 1 && FirstCut(rest) == Cut(0, 1, 1, false);
    assert Resolve(rest[0..1]) == [LOWER_B] by { PlainResolves(rest); }
    assert Tokens(rest[1..], MAX_ARGS - 2) == [];
    assert Tokens(rest, MAX_ARGS - 1) == [[LOWER_B]];
  }

  lemma {:induction false} DanglingSweep()
    ensures SweepFrom([DOT, LOWER_A, BACKSLASH, 0, LOWER_B, 0], 1) == Stopped([LOWER_A, 0, LOWER_B], 5)
  {
    var b := [DOT, LOWER_A, BACKSLASH, 0, LOWER_B, 0];
    assert SweepFrom(b, 5) == Stopped([], 5);
    assert SweepFrom(b, 4) == Stopped([LOWER_B], 5);
    assert b[2..][1] == 0 && Unescape(b[2..]) == (0, 2);
    assert SweepFrom(b, 2) == Stopped([0, LOWER_B], 5);
  }

  // ----------------------------------------------------------- implementation

  method SkipBlanks(z: array<Byte>, from: nat, ghost n: nat) returns (i: nat)
    requires from <= n < z.Length && z[n] == 0
    ensures i == from + Blanks(z[from..n]) && i <= n
  {
    i := from;
    while IsSpace(z[i])
      invariant from <= i <= n
      invariant i + Blanks(z[i..n]) == from + Blanks(z[from..n])
      decreases n - i
    {
      assert z[i..n][1..] == z[i + 1..n];
      i := i + 1;
    }
    assert i < n ==> z[i..n][0] == z[i];
  }

  method FindQuote(z: array<Byte>, from: nat, delim: Byte, ghost n: nat) returns (i: nat)
    requires from <= n < z.Length && z[n] == 0 && NoNul(z[from..n]) && delim != 0
    ensures i == from + QuoteLength(z[from..n], delim) && i <= n
  {
    i := from;
    assert forall k :: from <= k < n ==> z[k] == z[from..n][k - from];
    while z[i] != 0 && z[i] != delim
      invariant from <= i <= n
      invariant i + QuoteLength(z[i..n], delim) == from + QuoteLength(z[from..n], delim)
      decreases n - i
    {
      ghost var s := z[i..n];
      if z[i] == BACKSLASH && delim == DQUOTE && z[i + 1] != 0 {
        assert s[2..] == z[i + 2..n];
        i := i + 1;
      } else {
        assert s[1..] == z[i + 1..n];
      }
      i := i + 1;
    }
    assert i < n ==> z[i..n][0] == z[i];
  }

  method FindWordEnd(z: array<Byte>, from: nat, ghost n: nat) returns (i: nat)
    requires from <= n < z.Length && z[n] == 0 && NoNul(z[from..n])
    ensures i == from + WordLength(z[from..n]) && i <= n
  {
    i := from;
    assert forall k :: from <= k < n ==> z[k] == z[from..n][k - from];
    while z[i] != 0 && !IsSpace(z[i])
      invariant from <= i <= n
      invariant i + WordLength(z[i..n]) == from + WordLength(z[from..n])
      decreases n - i
    {
      assert z[i..n][1..] == z[i + 1..n];
      i := i + 1;
    }
    assert i < n ==> z[i..n][0] == z[i];
  }

  lemma {:induction false} QuoteEnds(s: Bytes, delim: Byte)
    ensures QuoteLength(s, delim) < |s| ==> s[QuoteLength(s, delim)] == delim
    decreases |s|
  {
    if s != [] && s[0] != delim {
      QuoteEnds(if s[0] == BACKSLASH && delim == DQUOTE && |s| > 1 then s[2..] else s[1..], delim);
    }
  }

  /** The quoted text starting at `lo`: terminate it at its closing quote. */
  method CutQuoted(z: array<Byte>, lo: nat, delim: Byte, ghost n: nat) returns (ghost hi: nat, next: nat)
    requires lo <= n < z.Length && z[n] == 0 && NoNul(z[lo..n]) && delim != 0
    modifies z
    ensures hi == lo + QuoteLength(old(z[lo..n]), delim) <= n && next == if hi < n then hi + 1 else hi
    ensures z[hi] == 0 && forall k :: 0 <= k < z.Length && k != hi ==> z[k] == old(z[k])
  {
    ghost var s := z[lo..n];
    QuoteEnds(s, delim);
    next := FindQuote(z, lo, delim, n);
    hi := next;
    assert hi < n ==> z[hi] == s[hi - lo];
    if z[next] == delim {
      z[next] := 0;
      next := next + 1;
    }
  }

  /** The word starting at `lo`: terminate it at the blank after it. */
  method CutWord(z: array<Byte>, lo: nat, ghost n: nat) returns (ghost hi: nat, next: nat)
    requires lo <= n < z.Length && z[n] == 0 && NoNul(z[lo..n])
    modifies z
    ensures hi == lo + WordLength(old(z[lo..n])) <= n && next == if hi < n then hi + 1 else hi
    ensures z[hi] == 0 && forall k :: 0 <= k < z.Length && k != hi ==> z[k] == old(z[k])
  {
    ghost var s := z[lo..n];
    next := FindWordEnd(z, lo, n);
    hi := next;
    assert hi < n ==> z[hi] == s[hi - lo];
    if z[next] != 0 {
      z[next] := 0;
      next := next + 1;
    }
  }

  /** Find and terminate the argument whose first byte, quote included, is at `b`. */
  method CutArgument(z: array<Byte>, b: nat, ghost i: nat, ghost n: nat, ghost s: Bytes)
    returns (lo: nat, ghost hi: nat, next: nat, literal: bool)
    requires i <= b < n < z.Length && z[n] == 0 && s == z[i..n] && NoNul(s) && b == i + Blanks(s)
    modifies z
    ensures var c := FirstCut(s);
            lo == i + c.lo && hi == i + c.hi && next == i + c.next && literal == c.literal
    ensures z[hi] == 0 && forall k :: 0 <= k < z.Length && k != hi ==> z[k] == old(z[k])
  {
    hide QuoteLength, WordLength, Blanks;
    assert z[b] == s[b - i] && s[b - i] != 0;
    literal := z[b] == SQUOTE;
    if z[b] == SQUOTE || z[b] == DQUOTE {
      lo := b + 1;
      assert z[lo..n] == s[lo - i..];
      hi, next := CutQuoted(z, lo, z[b], n);
    } else {
      lo := b;
      assert z[lo..n] == s[lo - i..];
      hi, next := CutWord(z, lo, n);
    }
  }

  /** Cut one argument off the line from `i` and undo its escapes. */
  method TakeArgument(z: array<Byte>, b: nat, ghost i: nat) returns (lo: nat, next: nat, inBuffer: bool)
    requires HasNul(z[..], i) && b == i + Blanks(StringAt(z[..], i)) < FirstNul(z[..], i)
    modifies z
    ensures match TakeOne(old(z[..]), i)
            case NoMore => false
            case LeftBuffer => !inBuffer
            case Took(arg, line, after) => inBuffer && lo == arg && z[..] == line && next == after
  {
    hide FirstCut, Blanks, SweepFrom;
    ghost var all, n, s := z[..], FirstNul(z[..], i), StringAt(z[..], i);
    assert s == z[i..n];
    ghost var hi;
    var literal;
    lo, hi, next, literal := CutArgument(z, b, i, n, s);
    assert z[..] == Terminated(all, i);
    inBuffer := true;
    if !literal {
      inBuffer := ResolveBackslashes(z, lo);
    }
  }

  /** Cut the line after its leading dot into at most fifty arguments, in place.
      Undoing an escape may leave the buffer: then there is no outcome. */
  method Tokenize(z: array<Byte>) returns (args: seq<nat>, inBuffer: bool)
    requires HasNul(z[..], 1)
    modifies z
    ensures |args| <= 50
    ensures if inBuffer then CutLine(old(z[..]), 1, MAX_ARGS) == Done(z[..], args)
            else CutLine(old(z[..]), 1, MAX_ARGS) == Lost
  {
    hide TakeOne, StringAt, FirstNul, Blanks;
    var i: nat := 1;
    args := [];
    NothingTaken(z[..], i, MAX_ARGS);
    while z[i] != 0 && |args| < MAX_ARGS
      invariant |args| <= MAX_ARGS && HasNul(z[..], i) && i < z.Length
      invariant CutLine(old(z[..]), 1, MAX_ARGS) == Prepend(args, CutLine(z[..], i, MAX_ARGS - |args|))
      decreases MAX_ARGS - |args|
    {
      ghost var line, slots := z[..], MAX_ARGS - |args|;
      TurnShape(line, i);
      StringLength(line, i);
      var b := SkipBlanks(z, i, FirstNul(line, i));
      assert line[i..FirstNul(line, i)] == StringAt(line, i) by { StringIs(line, i); }
      EndOfBlanks(line, i, b);
      if z[b] == 0 {
        assert args + [] == args;
        return args, true;
      }
      var lo, next, ok := TakeArgument(z, b, i);
      if !ok {
        return args, false;
      }
      PrependTwice(args, lo, CutLine(z[..], next, slots - 1));
      args := args + [lo];
      i := next;
    }
    LineEnds(z[..], i, MAX_ARGS - |args|, args);
    return args, true;
  }

  lemma {:induction false} NothingTaken(b: Bytes, i: nat, slots: nat)
    requires HasNul(b, i)
    ensures Prepend([], CutLine(b, i, slots)) == CutLine(b, i, slots) && i < |b|
  {
  }

  lemma {:induction false} StringIs(b: Bytes, i: nat)
    requires HasNul(b, i)
    ensures StringAt(b, i) == b[i..FirstNul(b, i)] && b[FirstNul(b, i)] == 0
  {
  }

  lemma {:induction false} EndOfBlanks(b: Bytes, i: nat, at: nat)
    requires HasNul(b, i) && at == i + Blanks(StringAt(b, i))
    ensures at <= FirstNul(b, i) && (b[at] == 0 <==> at == FirstNul(b, i))
  {
    assert at < FirstNul(b, i) ==> b[at] == StringAt(b, i)[at - i];
  }

  lemma {:induction false} PrependTwice(args: seq<nat>, lo: nat, c: Cutting)
    ensures Prepend(args, Prepend([lo], c)) == Prepend(args + [lo], c)
  {
    if c.Done? { SeqAssoc(args, [lo], c.args); }
  }

  lemma {:induction false} LineEnds(b: Bytes, i: nat, slots: nat, args: seq<nat>)
    requires HasNul(b, i) && i < |b| && (slots == 0 || b[i] == 0)
    ensures Prepend(args, CutLine(b, i, slots)) == Done(b, args)
  {
    if b[i] == 0 { NothingThere(b, i, slots); }
    assert args + [] == args;
  }

  lemma {:induction false} NextToken(s: Bytes, slots: nat)
    requires slots > 0 && WellEscaped(s, slots)
    ensures Blanks(s) == |s| ==> Tokens(s, slots) == []
    ensures Blanks(s) < |s| ==>
              var c := FirstCut(s);
              && (c.literal || Resolvable(s[c.lo..c.hi]))
              && WellEscaped(s[c.next..], slots - 1)
              && Tokens(s, slots) == [TextOf(s, c)] + Tokens(s[c.next..], slots - 1)
  {
  }

  lemma {:induction false} NothingLeft(s: Bytes, slots: nat)
    ensures s == [] || slots == 0 ==> Tokens(s, slots) == []
  {
  }
}
