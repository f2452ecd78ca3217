/** The shell's C-style quoting: printing a string between double quotes, and
    reading arguments back by cutting a line in place and undoing the escapes. */
module CString {
  import opened Basics

  newtype Byte = b: int | 0 <= b < 256

  type Bytes = seq<Byte>

  const TAB: Byte := 9
  const LF: Byte := 10
  const CR: Byte := 13
  const SPACE: Byte := 32
  const DQUOTE: Byte := 34
  const SQUOTE: Byte := 39
  const DOT: Byte := 46
  const ZERO: Byte := 48
  const BACKSLASH: Byte := 92
  const LOWER_N: Byte := 110
  const LOWER_R: Byte := 114
  const LOWER_T: Byte := 116

  predicate NoNul(s: Bytes) { forall i :: 0 <= i < |s| ==> s[i] != 0 }

  // ----------------------------------------------------------------- printing

  /** How one byte is printed; `printable` is the locale's classification. */
  function Escape(c: Byte, printable: Byte -> bool): Bytes
  {
    if c == BACKSLASH then [BACKSLASH, BACKSLASH]
    else if c == DQUOTE then [BACKSLASH, DQUOTE]
    else if c == TAB then [BACKSLASH, LOWER_T]
    else if c == LF then [BACKSLASH, LOWER_N]
    else if c == CR then [BACKSLASH, LOWER_R]
    else if !printable(c) then [BACKSLASH, ZERO + c / 64, ZERO + c / 8 % 8, ZERO + c % 8]
    else [c]
  }

  function EscapeAll(s: Bytes, printable: Byte -> bool): Bytes
  {
    if s == [] then [] else Escape(s[0], printable) + EscapeAll(s[1..], printable)
  }

  function Quoted(s: Bytes, printable: Byte -> bool): Bytes
  {
    [DQUOTE] + EscapeAll(s, printable) + [DQUOTE]
  }

  /** The printer leaves alone what needs no escape, uses two bytes for the five
      named bytes and four for other unprintable ones, and prints no tab or line end. */
  lemma {:induction false} EscapeShape(c: Byte, printable: Byte -> bool)
    ensures var e, named := Escape(c, printable), c == 92 || c == 34 || c == 9 || c == 10 || c == 13;
            && (|e| == if named then 2 else if printable(c) then 1 else 4)
            && (|e| == 1 ==> e == [c]) && (|e| > 1 ==> e[0] == 92)
            && forall i :: 0 <= i < |e| ==> e[i] != 9 && e[i] != 10 && e[i] != 13
  {
    if |Escape(c, printable)| == 4 { OctalDigits(c); }
  }

  /** A string of printable bytes without quote or backslash is printed as it is. */
  lemma {:induction false} PlainIsPrintedAsIs(s: Bytes, printable: Byte -> bool)
    requires forall i :: 0 <= i < |s| ==>
               printable(s[i]) && s[i] != 92 && s[i] != 34 && s[i] != 9 && s[i] != 10 && s[i] != 13
    ensures Quoted(s, printable) == [34] + s + [34]
  {
    PlainUnescaped(s, printable);
  }

  lemma {:induction false} PlainUnescaped(s: Bytes, printable: Byte -> bool)
    requires forall i :: 0 <= i < |s| ==> |Escape(s[i], printable)| == 1 && Escape(s[i], printable) == [s[i]]
    ensures EscapeAll(s, printable) == s
  {
    if s != [] {
      PlainUnescaped(s[1..], printable);
      assert s == [s[0]] + s[1..];
    }
  }

  lemma {:induction false} EscapeAllSnoc(s: Bytes, c: Byte, printable: Byte -> bool)
    ensures EscapeAll(s + [c], printable) == EscapeAll(s, printable) + Escape(c, printable)
  {
    if s == [] {
      assert s + [c] == [c] && [c][1..] == [];
    } else {
      assert (s + [c])[1..] == s[1..] + [c];
      EscapeAllSnoc(s[1..], c, printable);
    }
  }

  /** The bytes written for one byte of the string. */
  method PutByte(out: Bytes, c: Byte, printable: Byte -> bool) returns (out': Bytes)
    ensures out' == out + Escape(c, printable)
  {
    if c == BACKSLASH {
      out' := out + [c, c];
    } else if c == DQUOTE {
      out' := out + [BACKSLASH, DQUOTE];
    } else if c == TAB {
      out' := out + [BACKSLASH, LOWER_T];
    } else if c == LF {
      out' := out + [BACKSLASH, LOWER_N];
    } else if c == CR {
      out' := out + [BACKSLASH, LOWER_R];
    } else if !printable(c) {
      out' := out + [BACKSLASH, ZERO + c / 64, ZERO + c / 8 % 8, ZERO + c % 8];
    } else {
      out' := out + [c];
    }
  }

  /** `output_c_string`: byte by byte to the output. */
  method OutputCString(s: Bytes, printable: Byte -> bool) returns (out: Bytes)
    requires NoNul(s)
    ensures out == Quoted(s, printable)
  {
    hide Escape;
    out := [DQUOTE];
    for i := 0 to |s|
      invariant out == [DQUOTE] + EscapeAll(s[..i], printable)
    {
      EscapeAllSnoc(s[..i], s[i], printable);
      assert s[..i + 1] == s[..i] + [s[i]];
      out := PutByte(out, s[i], printable);
    }
    assert s[..|s|] == s;
    out := out + [DQUOTE];
  }

  // ---------------------------------------------------------------- unescaping

  predicate IsOctal(c: Byte) { ZERO <= c <= ZERO + 7 }

  /** Three octal digits, cut to one byte. */
  function Octal(a: Byte, b: Byte, c: Byte): Byte
    requires IsOctal(a) && IsOctal(b) && IsOctal(c)
  {
    ((((a - ZERO) * 8 + (b - ZERO)) as int * 8 + (c - ZERO) as int) % 256) as Byte
  }

  /** The byte an escape denotes and how many bytes it takes, backslash included. */
  function Unescape(s: Bytes): (u: (Byte, nat))
    requires |s| >= 2
    ensures 2 <= u.1 <= 4 && u.1 <= |s|
  {
    var c := s[1];
    if c == LOWER_N then (LF, 2)
    else if c == LOWER_T then (TAB, 2)
    else if c == LOWER_R then (CR, 2)
    else if c == BACKSLASH then (BACKSLASH, 2)
    else if IsOctal(c) then
      if |s| > 2 && IsOctal(s[2]) then
        if |s| > 3 && IsOctal(s[3])
        then (Octal(c, s[2], s[3]), 4)
        else ((c - ZERO) * 8 + (s[2] - ZERO), 3)
      else (c - ZERO, 2)
    else (c, 2)
  }

  /** What an escape denotes: tab, line feed and carriage return by letter, up to three
      octal digits by number cut to one byte, and any other byte itself. */
  lemma {:induction false} EscapeMeans(c: Byte, rest: Bytes)
    ensures var u := Unescape([BACKSLASH, c] + rest);
            && (c == 110 ==> u == (10, 2)) && (c == 116 ==> u == (9, 2)) && (c == 114 ==> u == (13, 2))
            && (!IsOctal(c) && c != 110 && c != 116 && c != 114 ==> u == (c, 2))
            && (IsOctal(c) && (rest == [] || !IsOctal(rest[0])) ==> u == (c - 48, 2))
            && (IsOctal(c) && |rest| > 0 && IsOctal(rest[0]) && (|rest| == 1 || !IsOctal(rest[1])) ==>
                 u == ((c - 48) * 8 + (rest[0] - 48), 3))
            && (IsOctal(c) && |rest| > 1 && IsOctal(rest[0]) && IsOctal(rest[1]) ==>
                 u.1 == 4 && u.0 as int ==
                 ((c - 48) as int * 64 + (rest[0] - 48) as int * 8 + (rest[1] - 48) as int) % 256)
  {
  }

  lemma {:induction false} OctalDigitsAre(c: Byte)
    ensures IsOctal(c) <==> 48 <= c <= 55
  {
  }

  /** No backslash is left without a byte to escape. */
  predicate Resolvable(s: Bytes)
    decreases |s|
  {
    s == [] ||
    if s[0] == BACKSLASH then |s| >= 2 && Resolvable(s[Unescape(s).1..]) else Resolvable(s[1..])
  }

  /** The text with its escapes undone; a dangling backslash gives nothing. */
  function Resolve(s: Bytes): (r: Bytes)
    ensures |r| <= |s|
    decreases |s|
  {
    if s == [] || s == [BACKSLASH] then []
    else if s[0] == BACKSLASH then [Unescape(s).0] + Resolve(s[Unescape(s).1..])
    else [s[0]] + Resolve(s[1..])
  }

  lemma {:induction false} OctalDigits(c: Byte)
    ensures IsOctal(ZERO + c / 64) && IsOctal(ZERO + c / 8 % 8) && IsOctal(ZERO + c % 8)
    ensures Octal(ZERO + c / 64, ZERO + c / 8 % 8, ZERO + c % 8) == c
  {
    assert c / 8 == (c / 64) * 8 + c / 8 % 8;
  }

  /** Each printed byte resolves to itself, whatever follows it. */
  lemma {:induction false} ResolveOne(c: Byte, printable: Byte -> bool, rest: Bytes)
    ensures Resolvable(Escape(c, printable) + rest) <==> Resolvable(rest)
    ensures Resolve(Escape(c, printable) + rest) == [c] + Resolve(rest)
  {
    var e := Escape(c, printable);
    var s := e + rest;
    OctalDigits(c);
    if e[0] == BACKSLASH {
      assert Unescape(s) == (c, |e|);
      assert s[|e|..] == rest;
    } else {
      assert s[1..] == rest;
    }
  }

  lemma {:induction false} ResolveUndoesEscape(s: Bytes, printable: Byte -> bool)
    ensures Resolvable(EscapeAll(s, printable)) && Resolve(EscapeAll(s, printable)) == s
  {
    if s != [] {
      ResolveUndoesEscape(s[1..], printable);
      ResolveOne(s[0], printable, EscapeAll(s[1..], printable));
      assert s == [s[0]] + s[1..];
    }
  }

  // -------------------------------------------------- when the loop stays inside

  /** How many backslashes the text ends with. */
  function TrailingBackslashes(s: Bytes): (n: nat)
    ensures n <= |s|
  {
    if s == [] || s[|s| - 1] != BACKSLASH then 0 else 1 + TrailingBackslashes(s[..|s| - 1])
  }

  lemma {:induction false} TrailingConcat(a: Bytes, b: Bytes)
    ensures TrailingBackslashes(a + b) ==
              if TrailingBackslashes(b) == |b| then |b| + TrailingBackslashes(a) else TrailingBackslashes(b)
  {
    if b == [] {
      assert a + b == a;
    } else {
      TrailingConcat(a, b[..|b| - 1]);
      assert (a + b)[..|a + b| - 1] == a + b[..|b| - 1];
    }
  }

  /** An escape ends with a backslash only when it is a doubled one. */
  lemma {:induction false} TrailingOfUnit(s: Bytes)
    requires |s| >= 2 && s[0] == BACKSLASH
    ensures TrailingBackslashes(s[..Unescape(s).1]) % 2 == 0
  {
    var u := s[..Unescape(s).1];
    if s[1] == BACKSLASH {
      assert u == [BACKSLASH, BACKSLASH] && u[..1] == [BACKSLASH] && u[..1][..0] == [];
    }
  }

  lemma {:induction false} EvenStep(a: Bytes, b: Bytes)
    requires TrailingBackslashes(a) % 2 == 0
    ensures TrailingBackslashes(a + b) % 2 == TrailingBackslashes(b) % 2
  {
    TrailingConcat(a, b);
  }

  lemma {:induction false} TrailingOfOne(c: Byte)
    ensures TrailingBackslashes([c]) == if c == BACKSLASH then 1 else 0
    ensures TrailingBackslashes([]) == 0
  {
    assert [c][..0] == [];
  }

  /** Escapes can be undone if and only if the backslashes at the end are even in
      number. */
  lemma {:induction false} ResolvableIffEven(s: Bytes)
    ensures Resolvable(s) <==> TrailingBackslashes(s) % 2 == 0
    decreases |s|
  {
    hide Unescape, TrailingBackslashes;
    if s == [] || s == [BACKSLASH] {
      TrailingOfOne(BACKSLASH);
    } else {
      var k := if s[0] == BACKSLASH then Unescape(s).1 else 1;
      ResolvableIffEven(s[k..]);
      if s[0] == BACKSLASH {
        TrailingOfUnit(s);
      } else {
        TrailingOfOne(s[0]);
        assert s[..1] == [s[0]];
      }
      EvenStep(s[..k], s[k..]);
      assert s == s[..k] + s[k..];
    }
  }

  /** What the loop does on the buffer `b` from `i`: the bytes it writes and where
      it finds the terminator, or that it reads beyond the buffer. */
  datatype Sweep = OffBuffer | Stopped(text: Bytes, at: nat)

  /** The byte or escape at `i`: what it denotes and how many bytes it takes. */
  function UnitAt(b: Bytes, i: nat): (u: (Byte, nat))
    requires i < |b| && (b[i] == BACKSLASH ==> i + 1 < |b|)
    ensures 1 <= u.1 <= |b| - i
  {
    if b[i] == BACKSLASH then Unescape(b[i..]) else (b[i], 1)
  }

  function SweepFrom(b: Bytes, i: nat): (w: Sweep)
    requires i <= |b|
    ensures w.Stopped? ==> i + |w.text| <= w.at < |b| && b[w.at] == 0
    decreases |b| - i
  {
    if i == |b| then OffBuffer
    else if b[i] == 0 then Stopped([], i)
    else if b[i] == BACKSLASH && i + 1 == |b| then OffBuffer
    else
      var (c, k) := UnitAt(b, i);
      After([c], SweepFrom(b, i + k))
  }

  function After(done: Bytes, w: Sweep): Sweep
  {
    if w.OffBuffer? then OffBuffer else Stopped(done + w.text, w.at)
  }

  /** An escape that has a byte to escape ends before the terminator. */
  lemma {:induction false} UnescapeInside(b: Bytes, i: nat, end: nat)
    requires i + 2 <= end < |b| && b[end] == 0
    ensures Unescape(b[i..]) == Unescape(b[i..end])
  {
    var s, all := b[i..end], b[i..];
    assert forall k :: 0 <= k < |s| ==> s[k] == all[k];
    assert all[end - i] == 0;
  }

  /** A backslash before the terminator: the terminator is taken for the byte. */
  lemma {:induction false} DanglingUnit(s: Bytes)
    requires |s| >= 2 && s[1] == 0
    ensures Unescape(s) == (0, 2)
  {
  }

  /** The loop from `i` stops at `end`, with the escapes undone, if no backslash
      dangles before it, and otherwise passes it. */
  ghost predicate StopsRight(b: Bytes, i: nat, end: nat)
    requires i <= end < |b|
  {
    var s, w := b[i..end], SweepFrom(b, i);
    if Resolvable(s) then w == Stopped(Resolve(s), end) else w.OffBuffer? || w.at > end
  }

  lemma {:induction false} PlainStopsRight(b: Bytes, i: nat, end: nat)
    requires i < end < |b| && b[i] != 0 && b[i] != BACKSLASH && StopsRight(b, i + 1, end)
    ensures StopsRight(b, i, end)
  {
    var s := b[i..end];
    assert s[0] == b[i] && s[1..] == b[i + 1..end];
  }

  lemma {:induction false} EscapeStopsRight(b: Bytes, i: nat, end: nat, k: nat)
    requires i + 1 < end < |b| && b[end] == 0 && b[i] == BACKSLASH
    requires k == Unescape(b[i..end]).1 && StopsRight(b, i + k, end)
    ensures StopsRight(b, i, end)
  {
    hide Unescape;
    var s := b[i..end];
    UnescapeInside(b, i, end);
    assert s[0] == b[i] && s[k..] == b[i + k..end];
  }

  lemma {:induction false} DanglingPasses(b: Bytes, i: nat, end: nat)
    requires i + 1 == end < |b| && b[end] == 0 && b[i] == BACKSLASH
    ensures StopsRight(b, i, end)
  {
    hide Unescape;
    assert b[i..end] == [BACKSLASH];
    DanglingUnit(b[i..]);
  }

  lemma {:induction false} NoNulFrom(b: Bytes, i: nat, next: nat, end: nat)
    requires i <= next <= end <= |b| && NoNul(b[i..end])
    ensures NoNul(b[next..end]) && (i < end ==> b[i] != 0)
  {
    var s := b[i..end];
    assert forall k :: 0 <= k < end - next ==> b[next..end][k] == s[k + (next - i)];
    assert i < end ==> s[0] == b[i];
  }

  /** The loop stays inside its string if and only if no backslash dangles. Then it
      writes the text with its escapes undone; otherwise it passes the terminator
      and goes on in whatever follows, or leaves the buffer. */
  lemma {:induction false} SweepInsideIff(b: Bytes, i: nat, end: nat)
    requires i <= end < |b| && b[end] == 0 && NoNul(b[i..end])
    ensures Resolvable(b[i..end]) ==> SweepFrom(b, i) == Stopped(Resolve(b[i..end]), end)
    ensures !Resolvable(b[i..end]) ==> SweepFrom(b, i).OffBuffer? || SweepFrom(b, i).at > end
    decreases end - i
  {
    hide NoNul, Unescape, SweepFrom, Resolvable, Resolve;
    NoNulFrom(b, i, i, end);
    if i == end {
      NothingSwept(b, i);
    } else if b[i] != BACKSLASH {
      NoNulFrom(b, i, i + 1, end);
      SweepInsideIff(b, i + 1, end);
      PlainStopsRight(b, i, end);
    } else if i + 1 < end {
      var k := Unescape(b[i..end]).1;
      NoNulFrom(b, i, i + k, end);
      SweepInsideIff(b, i + k, end);
      EscapeStopsRight(b, i, end, k);
    } else {
      DanglingPasses(b, i, end);
    }
  }

  lemma {:induction false} NothingSwept(b: Bytes, i: nat)
    requires i < |b| && b[i] == 0
    ensures StopsRight(b, i, i)
  {
    assert b[i..i] == [];
  }

  /** A string at the very end of its buffer: the loop leaves the buffer if and only
      if the string ends with an odd number of backslashes. */
  lemma {:induction false} LeavesBufferIffOdd(b: Bytes, i: nat)
    requires i < |b| && b[|b| - 1] == 0 && NoNul(b[i..|b| - 1])
    ensures SweepFrom(b, i).OffBuffer? <==> TrailingBackslashes(b[i..|b| - 1]) % 2 == 1
  {
    SweepInsideIff(b, i, |b| - 1);
    ResolvableIffEven(b[i..|b| - 1]);
  }

  // ----------------------------------------------------------- implementation

  /** Read the escape at `i`: its byte, and the index of its last byte. */
  method ReadEscape(z: array<Byte>, i: nat) returns (c: Byte, last: nat)
    requires i + 1 < z.Length
    ensures (c, last + 1 - i) == Unescape(z[i..])
  {
    last := i + 1;
    c := z[last];
    if c == LOWER_N {
      c := LF;
    } else if c == LOWER_T {
      c := TAB;
    } else if c == LOWER_R {
      c := CR;
    } else if c == BACKSLASH {
      c := BACKSLASH;
    } else if IsOctal(c) {
      c := c - ZERO;
      if last + 1 < z.Length && IsOctal(z[last + 1]) {
        last := last + 1;
        c := c * 8 + (z[last] - ZERO);
        if last + 1 < z.Length && IsOctal(z[last + 1]) {
          last := last + 1;
          c := ((c as int * 8 + (z[last] - ZERO) as int) % 256) as Byte;
        }
      }
    }
  }

  /** The buffer with a terminated text written at `at`. */
  function Overwritten(b: Bytes, at: nat, text: Bytes): (r: Bytes)
    requires at + |text| < |b|
    ensures |r| == |b|
    ensures forall k :: 0 <= k < |b| ==>
              r[k] == if at <= k < at + |text| then text[k - at] else if k == at + |text| then 0 else b[k]
  {
    b[..at] + text + [0] + b[at + |text| + 1..]
  }

  /** One turn of the loop: the byte or escape at `i` becomes the byte at `j`. */
  method CopyUnit(z: array<Byte>, i: nat, j: nat, ghost all: Bytes) returns (next: nat, ghost c: Byte)
    requires j <= i < z.Length == |all| && (z[i] == BACKSLASH ==> i + 1 < z.Length)
    requires forall k :: i <= k < z.Length ==> z[k] == all[k]
    modifies z
    ensures (c, next - i) == UnitAt(all, i) && z[j] == c
    ensures forall k :: 0 <= k < z.Length && k != j ==> z[k] == old(z[k])
  {
    assert z[i..] == all[i..];
    var byte := z[i];
    next := i + 1;
    if byte == BACKSLASH {
      var last;
      byte, last := ReadEscape(z, i);
      next := last + 1;
    }
    c := byte;
    z[j] := byte;
  }

  lemma {:induction false} SweepStep(b: Bytes, i: nat, done: Bytes)
    requires i < |b| && b[i] != 0 && (b[i] == BACKSLASH ==> i + 1 < |b|)
    ensures var (c, k) := UnitAt(b, i); After(done, SweepFrom(b, i)) == After(done + [c], SweepFrom(b, i + k))
  {
    var (c, k) := UnitAt(b, i);
    var w := SweepFrom(b, i + k);
    if w.Stopped? { SeqAssoc(done, [c], w.text); }
  }

  lemma {:induction false} SweepEnds(b: Bytes, i: nat, done: Bytes)
    requires i <= |b|
    ensures i == |b| || (b[i] == BACKSLASH && i + 1 == |b|) ==> After(done, SweepFrom(b, i)) == OffBuffer
    ensures i < |b| && b[i] == 0 ==> After(done, SweepFrom(b, i)) == Stopped(done, i)
    ensures After([], SweepFrom(b, i)) == SweepFrom(b, i)
  {
  }

  /** `resolve_backslashes`, in place from `start`: whether reading stayed in the
      buffer, and then the buffer it leaves. */
  method ResolveBackslashes(z: array<Byte>, start: nat) returns (inBuffer: bool)
    requires start <= z.Length
    modifies z
    ensures var w := SweepFrom(old(z[..]), start);
            && (inBuffer <==> w.Stopped?)
            && (inBuffer ==> z[..] == Overwritten(old(z[..]), start, w.text))
    ensures forall k :: 0 <= k < start ==> z[k] == old(z[k])
  {
    hide SweepFrom, UnitAt, After;
    var i, j := start, start;
    ghost var all := z[..];
    ghost var done: Bytes := [];
    SweepEnds(all, i, done);
    while i < z.Length && z[i] != 0
      invariant start <= j <= i <= z.Length && |done| == j - start
      invariant forall k :: 0 <= k < |done| ==> z[start + k] == done[k]
      invariant forall k :: 0 <= k < z.Length && !(start <= k < j) ==> z[k] == all[k]
      invariant SweepFrom(all, start) == After(done, SweepFrom(all, i))
      decreases z.Length - i
    {
      if z[i] == BACKSLASH && i + 1 == z.Length {
        SweepEnds(all, i, done);
        return false;
      }
      SweepStep(all, i, done);
      var next;
      ghost var c;
      next, c := CopyUnit(z, i, j, all);
      done := done + [c];
      i, j := next, j + 1;
    }
    SweepEnds(all, i, done);
    if i == z.Length {
      return false;
    }
    z[j] := 0;
    return true;
  }
}
