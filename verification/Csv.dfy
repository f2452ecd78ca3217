/** The shell's CSV mode, and a reader following the quoting rules of section 2
    of RFC 4180, with LF line ends and a chosen separator. */
module Csv {
  import opened CString

  type Record = seq<Bytes>

  /** The bytes that force a field into quotes: control bytes and blanks, both
      quotes, DEL and everything above it. */
  predicate NeedsQuote(c: Byte) { c <= SPACE || c == DQUOTE || c == SQUOTE || c >= 127 }

  predicate GoodSeparator(sep: Byte) { sep != DQUOTE && sep != CR && sep != LF && sep != 0 }

  // ------------------------------------------------------------------ writing

  predicate IsPlain(z: Bytes, sep: Byte)
  {
    z != [] && forall i :: 0 <= i < |z| ==> !NeedsQuote(z[i]) && z[i] != sep
  }

  /** Every double quote written twice. */
  function Doubled(z: Bytes): Bytes
  {
    if z == [] then []
    else (if z[0] == DQUOTE then [DQUOTE, DQUOTE] else [z[0]]) + Doubled(z[1..])
  }

  function FieldText(z: Bytes, sep: Byte): Bytes
  {
    if IsPlain(z, sep) then z else [DQUOTE] + Doubled(z) + [DQUOTE]
  }

  function RecordText(r: Record, sep: Byte): Bytes
    requires r != []
  {
    if |r| == 1 then FieldText(r[0], sep) + [LF]
    else FieldText(r[0], sep) + [sep] + RecordText(r[1..], sep)
  }

  function TableText(rows: seq<Record>, sep: Byte): Bytes
    requires forall i :: 0 <= i < |rows| ==> rows[i] != []
  {
    if rows == [] then [] else RecordText(rows[0], sep) + TableText(rows[1..], sep)
  }

  /** A field is written as it is if and only if it is not empty and has only visible
      ASCII bytes other than both quotes and the separator. */
  lemma {:induction false} QuotesOnlyWhenNeeded(z: Bytes, sep: Byte)
    ensures FieldText(z, sep) == z <==>
              z != [] && forall i :: 0 <= i < |z| ==> 33 <= z[i] <= 126 && z[i] != 34 && z[i] != 39 && z[i] != sep
  {
    if !IsPlain(z, sep) { DoubledIsLonger(z); }
  }

  lemma {:induction false} DoubledIsLonger(z: Bytes)
    ensures |z| <= |Doubled(z)|
  {
    if z != [] { DoubledIsLonger(z[1..]); }
  }

  lemma {:induction false} DoubledSnoc(z: Bytes, c: Byte)
    ensures Doubled(z + [c]) == Doubled(z) + if c == DQUOTE then [DQUOTE, DQUOTE] else [c]
  {
    if z == [] {
      assert z + [c] == [c] && [c][1..] == [];
    } else {
      DoubledSnoc(z[1..], c);
      assert (z + [c])[1..] == z[1..] + [c];
    }
  }

  /** `output_csv`: one field, and the separator when more fields follow. */
  method OutputField(out: Bytes, z: Bytes, sep: Byte, more: bool) returns (out': Bytes)
    ensures out' == out + FieldText(z, sep) + if more then [sep] else []
  {
    var i := 0;
    while i < |z|
      invariant 0 <= i <= |z|
      invariant forall k :: 0 <= k < i ==> !NeedsQuote(z[k]) && z[k] != sep
    {
      if NeedsQuote(z[i]) || z[i] == sep {
        assert !IsPlain(z, sep);
        i := 0;
        break;
      }
      i := i + 1;
    }
    assert i == 0 <==> !IsPlain(z, sep);
    if i == 0 {
      var text := QuoteField(z);
      out' := out + text;
    } else {
      out' := out + z;
    }
    if more {
      out' := out' + [sep];
    }
  }

  method QuoteField(z: Bytes) returns (text: Bytes)
    ensures text == [DQUOTE] + Doubled(z) + [DQUOTE]
  {
    text := [DQUOTE];
    for i := 0 to |z|
      invariant text == [DQUOTE] + Doubled(z[..i])
    {
      DoubledSnoc(z[..i], z[i]);
      assert z[..i + 1] == z[..i] + [z[i]];
      if z[i] == DQUOTE {
        text := text + [DQUOTE];
      }
      text := text + [z[i]];
    }
    assert z[..|z|] == z;
    text := text + [DQUOTE];
  }

  /** One row of CSV output. */
  method OutputRecord(out: Bytes, r: Record, sep: Byte) returns (out': Bytes)
    requires r != []
    ensures out' == out + RecordText(r, sep)
  {
    hide FieldText;
    out' := out;
    assert r[0..] == r;
    for i := 0 to |r|
      invariant i < |r| ==> out' + RecordText(r[i..], sep) == out + RecordText(r, sep)
      invariant i == |r| ==> out' + [LF] == out + RecordText(r, sep)
    {
      ghost var before, rest := out', r[i..];
      assert rest[0] == r[i] && (i + 1 < |r| ==> rest[1..] == r[i + 1..]);
      out' := OutputField(out', r[i], sep, i < |r| - 1);
      if i < |r| - 1 {
        assert before + (FieldText(r[i], sep) + [sep] + RecordText(r[i + 1..], sep)) ==
               before + FieldText(r[i], sep) + [sep] + RecordText(r[i + 1..], sep);
      }
    }
    out' := out' + [LF];
  }

  // ------------------------------------------------------------------ reading

  datatype Parsed<T> = Malformed | Got(value: T, rest: Bytes)

  /** The inside of a quoted field, up to its closing quote. */
  function ReadQuoted(s: Bytes): (p: Parsed<Bytes>)
    ensures p.Got? ==> |p.rest| < |s|
    decreases |s|
  {
    if s == [] then Malformed
    else if s[0] == DQUOTE then
      if |s| > 1 && s[1] == DQUOTE then
        var p := ReadQuoted(s[2..]);
        if p.Got? then Got([DQUOTE] + p.value, p.rest) else Malformed
      else Got([], s[1..])
    else
      var p := ReadQuoted(s[1..]);
      if p.Got? then Got([s[0]] + p.value, p.rest) else Malformed
  }

  /** An unquoted field: no quotes inside, up to a separator or the line end. */
  function ReadPlain(s: Bytes, sep: Byte): (p: Parsed<Bytes>)
    ensures p.Got? ==> |p.rest| <= |s|
  {
    if s == [] || s[0] == sep || s[0] == LF then Got([], s)
    else if s[0] == DQUOTE then Malformed
    else
      var p := ReadPlain(s[1..], sep);
      if p.Got? then Got([s[0]] + p.value, p.rest) else Malformed
  }

  function ReadField(s: Bytes, sep: Byte): (p: Parsed<Bytes>)
    ensures p.Got? ==> |p.rest| <= |s|
  {
    if s != [] && s[0] == DQUOTE then ReadQuoted(s[1..]) else ReadPlain(s, sep)
  }

  function ReadRecord(s: Bytes, sep: Byte): (p: Parsed<Record>)
    ensures p.Got? ==> |p.rest| < |s|
    decreases |s|
  {
    var f := ReadField(s, sep);
    if f.Malformed? || f.rest == [] then Malformed
    else if f.rest[0] == sep then
      var p := ReadRecord(f.rest[1..], sep);
      if p.Got? then Got([f.value] + p.value, p.rest) else Malformed
    else if f.rest[0] == LF then Got([f.value], f.rest[1..])
    else Malformed
  }

  function ReadTable(s: Bytes, sep: Byte): (p: Parsed<seq<Record>>)
    decreases |s|
  {
    if s == [] then Got([], [])
    else
      var r := ReadRecord(s, sep);
      if r.Malformed? then Malformed
      else
        var p := ReadTable(r.rest, sep);
        if p.Got? then Got([r.value] + p.value, p.rest) else Malformed
  }

  // --------------------------------------------------------------- round trip

  lemma {:induction false} ReadsQuoted(z: Bytes, rest: Bytes)
    requires rest == [] || rest[0] != DQUOTE
    ensures ReadQuoted(Doubled(z) + [DQUOTE] + rest) == Got(z, rest)
  {
    var s := Doubled(z) + [DQUOTE] + rest;
    if z == [] {
      assert s == [DQUOTE] + rest && s[1..] == rest;
    } else {
      ReadsQuoted(z[1..], rest);
      var inner := Doubled(z[1..]) + [DQUOTE] + rest;
      if z[0] == DQUOTE {
        assert s == [DQUOTE, DQUOTE] + inner && s[2..] == inner;
      } else {
        assert s == [z[0]] + inner && s[1..] == inner;
      }
      assert z == [z[0]] + z[1..];
    }
  }

  lemma {:induction false} ReadsPlain(z: Bytes, rest: Bytes, sep: Byte)
    requires forall i :: 0 <= i < |z| ==> !NeedsQuote(z[i]) && z[i] != sep
    requires rest != [] && (rest[0] == sep || rest[0] == LF)
    ensures ReadPlain(z + rest, sep) == Got(z, rest)
  {
    if z == [] {
      assert z + rest == rest;
    } else {
      ReadsPlain(z[1..], rest, sep);
      assert (z + rest)[1..] == z[1..] + rest && z == [z[0]] + z[1..];
    }
  }

  lemma {:induction false} ReadsField(z: Bytes, rest: Bytes, sep: Byte)
    requires GoodSeparator(sep) && rest != [] && (rest[0] == sep || rest[0] == LF)
    ensures ReadField(FieldText(z, sep) + rest, sep) == Got(z, rest)
  {
    hide Doubled, ReadQuoted, ReadPlain;
    var s := FieldText(z, sep) + rest;
    if IsPlain(z, sep) {
      ReadsPlain(z, rest, sep);
    } else {
      ReadsQuoted(z, rest);
      assert s[1..] == Doubled(z) + [DQUOTE] + rest;
    }
  }

  lemma {:induction false} ReadsRecord(r: Record, rest: Bytes, sep: Byte)
    requires r != [] && GoodSeparator(sep)
    ensures ReadRecord(RecordText(r, sep) + rest, sep) == Got(r, rest)
  {
    hide FieldText, ReadField;
    var f := FieldText(r[0], sep);
    var s := RecordText(r, sep) + rest;
    if |r| == 1 {
      ReadsField(r[0], [LF] + rest, sep);
      assert s == f + ([LF] + rest) && ([LF] + rest)[1..] == rest;
      assert r == [r[0]];
    } else {
      var tail := RecordText(r[1..], sep) + rest;
      ReadsField(r[0], [sep] + tail, sep);
      ReadsRecord(r[1..], rest, sep);
      assert s == f + ([sep] + tail) && ([sep] + tail)[1..] == tail;
      assert r == [r[0]] + r[1..];
    }
  }

  /** CSV output is recoverable: the reader gets back exactly the rows written,
      for every table of non-empty rows and every separator other than a double
      quote, CR, LF or NUL. */
  lemma {:induction false} TableReadsBack(rows: seq<Record>, sep: Byte)
    requires GoodSeparator(sep) && forall i :: 0 <= i < |rows| ==> rows[i] != []
    ensures ReadTable(TableText(rows, sep), sep) == Got(rows, [])
  {
    if rows != [] {
      var rest := TableText(rows[1..], sep);
      ReadsRecord(rows[0], rest, sep);
      TableReadsBack(rows[1..], sep);
      assert rows == [rows[0]] + rows[1..];
    }
  }
}
