/** The row sink: comma-joined, newline-terminated records appended to an
    in-memory buffer. Writing the buffer to a file (close) is not modelled. */
module Csv {

  /** The fields separated by commas, without the trailing newline. */
  function JoinFields(v: seq<string>): (s: string)
    decreases |v|
  {
    if |v| == 0 then ""
    else if |v| == 1 then v[0]
    else JoinFields(v[..|v| - 1]) + "," + v[|v| - 1]
  }

  /** join(v): the record text for one row. */
  function Joined(v: seq<string>): (s: string)
    ensures |s| >= 1 && s[|s| - 1] == '\n'
  {
    JoinFields(v) + "\n"
  }

  function SumLengths(v: seq<string>): nat
  {
    if |v| == 0 then 0 else SumLengths(v[..|v| - 1]) + |v[|v| - 1]|
  }

  /** The record is the fields, one comma between neighbours, and one newline. */
  lemma {:induction false} JoinedLength(v: seq<string>)
    ensures |Joined(v)| == SumLengths(v) + (if |v| == 0 then 0 else |v| - 1) + 1
  {
    JoinFieldsLength(v);
  }

  lemma {:induction false} JoinFieldsLength(v: seq<string>)
    ensures |JoinFields(v)| == SumLengths(v) + (if |v| == 0 then 0 else |v| - 1)
    decreases |v|
  {
    if |v| == 1 {
      assert v[..0] == [];
    } else if |v| > 1 {
      JoinFieldsLength(v[..|v| - 1]);
    }
  }

  /** An empty row is a lone newline. */
  lemma JoinedEmpty()
    ensures Joined([]) == "\n"
  {
  }

  /** `join` puts `v[0]` first and the newline last. */
  lemma {:induction false} JoinedShape(v: seq<string>)
    requires |v| >= 1
    ensures |v[0]| <= |JoinFields(v)| && JoinFields(v)[..|v[0]|] == v[0]
    decreases |v|
  {
    if |v| > 1 {
      var w := v[..|v| - 1];
      JoinedShape(w);
      assert w[0] == v[0];
      assert JoinFields(v) == JoinFields(w) + ("," + v[|v| - 1]);
      assert JoinFields(v)[..|v[0]|] == JoinFields(w)[..|v[0]|];
    }
  }

  predicate NoSeparator(f: string)
  {
    forall k :: 0 <= k < |f| ==> f[k] != ',' && f[k] != '\n'
  }

  /** Split a text at every comma. */
  function Split(s: string): (parts: seq<string>)
    ensures |parts| >= 1
    decreases |s|
  {
    if |s| == 0 then [""]
    else if s[|s| - 1] == ',' then Split(s[..|s| - 1]) + [""]
    else
      var p := Split(s[..|s| - 1]);
      p[..|p| - 1] + [p[|p| - 1] + [s[|s| - 1]]]
  }

  lemma {:induction false} SplitNoComma(f: string)
    requires forall k :: 0 <= k < |f| ==> f[k] != ','
    ensures Split(f) == [f]
    decreases |f|
  {
    if |f| > 0 {
      SplitNoComma(f[..|f| - 1]);
      assert f[..|f| - 1] + [f[|f| - 1]] == f;
    }
  }

  lemma {:induction false} SplitAppendField(s: string, f: string)
    requires forall k :: 0 <= k < |f| ==> f[k] != ','
    ensures Split(s + "," + f) == Split(s) + [f]
    decreases |f|
  {
    if |f| == 0 {
      assert (s + "," + f)[..|s + "," + f| - 1] == s;
    } else {
      var g := f[..|f| - 1];
      SplitAppendField(s, g);
      assert (s + "," + f)[..|s + "," + f| - 1] == s + "," + g;
      assert g + [f[|f| - 1]] == f;
    }
  }

  /** When no field holds a comma or a newline, splitting a non-empty row's
      text (its final newline removed) at the commas gives the fields back. */
  lemma {:induction false} JoinSplitRoundTrip(v: seq<string>)
    requires |v| >= 1
    requires forall i :: 0 <= i < |v| ==> NoSeparator(v[i])
    ensures var s := Joined(v); Split(s[..|s| - 1]) == v
    decreases |v|
  {
    var s := Joined(v);
    assert s[..|s| - 1] == JoinFields(v);
    if |v| == 1 {
      SplitNoComma(v[0]);
    } else {
      var w := v[..|v| - 1];
      JoinSplitRoundTrip(w);
      var sw := Joined(w);
      assert sw[..|sw| - 1] == JoinFields(w);
      SplitAppendField(JoinFields(w), v[|v| - 1]);
      assert w + [v[|v| - 1]] == v;
    }
  }

  /** CsvWriter: the output path and the text written so far. */
  class CsvWriter {
    var filePath: string
    var buffer: string

    /** The constructor records the path; the buffer starts empty. */
    constructor (path: string)
      ensures filePath == path && buffer == ""
    {
      filePath := path;
      buffer := "";
    }

    /** join, as the source's loop accumulating one field at a time. */
    method Join(v: seq<string>) returns (s: string)
      ensures s == Joined(v)
    {
      s := "";
      var i := 0;
      while i < |v|
        invariant 0 <= i <= |v|
        invariant s == JoinFields(v[..i])
      {
        if i > 0 {
          s := s + ",";
        }
        s := s + v[i];
        assert v[..i + 1][..i] == v[..i];
        i := i + 1;
      }
      assert v[..i] == v;
      s := s + "\n";
    }

    /** header: append one joined record. */
    method Header(columns: seq<string>)
      modifies this`buffer
      ensures buffer == old(buffer) + Joined(columns)
    {
      var line := Join(columns);
      buffer := buffer + line;
    }

    /** row: append one joined record; what was written stays a prefix. */
    method Row(columns: seq<string>)
      modifies this`buffer
      ensures buffer == old(buffer) + Joined(columns)
      ensures old(buffer) <= buffer
    {
      var line := Join(columns);
      buffer := buffer + line;
    }
  }
}
