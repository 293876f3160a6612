/** Tab-separated rows: the writer that joins sanitized fields and the reader that splits a line. */
module Tsv {

  predicate IsBreak(c: char)
  {
    c == '\n' || c == '\r'
  }

  /** No character of a clean field can end a field or a line. */
  predicate Clean(field: string)
  {
    forall i :: 0 <= i < |field| ==> field[i] != '\t' && !IsBreak(field[i])
  }

  function SanitizeTsvText(input: string): (r: string)
    ensures Clean(r) && |r| == |input|
    ensures forall i :: 0 <= i < |input| ==> r[i] == if input[i] == '\t' || IsBreak(input[i]) then ' ' else input[i]
  {
    seq(|input|, i requires 0 <= i < |input| => if input[i] == '\t' || IsBreak(input[i]) then ' ' else input[i])
  }

  /** A path segment: sanitized, without separators, never empty. */
  function SanitizePathSegment(input: string): (r: string)
    ensures Clean(r) && r != "" && '/' !in r && '\\' !in r
  {
    var clean := SanitizeTsvText(input);
    var out := seq(|clean|, i requires 0 <= i < |clean| =>
                 if clean[i] == '/' || clean[i] == '\\' then '_' else clean[i]);
    if out == "" then "node" else out
  }

  /** Fields joined with tabs. */
  function Join(fields: seq<string>): string
    requires fields != []
  {
    if |fields| == 1 then fields[0] else fields[0] + "\t" + Join(fields[1..])
  }

  /** A written row: the joined fields and a line feed. */
  function Row(fields: seq<string>): string
    requires fields != []
  {
    Join(fields) + "\n"
  }

  /** The line up to its first carriage return or line feed. */
  function Stem(line: string): (r: string)
    ensures r <= line
  {
    if line == "" || IsBreak(line[0]) then "" else [line[0]] + Stem(line[1..])
  }

  /** The tab-separated fields of a text without line breaks. */
  function Fields(s: string): (r: seq<string>)
    ensures r != []
  {
    if s == "" then [""]
    else if s[0] == '\t' then [""] + Fields(s[1..])
    else
      var rest := Fields(s[1..]);
      [[s[0]] + rest[0]] + rest[1..]
  }

  /** What the reader returns for a line. */
  function Split(line: string): seq<string>
  {
    Fields(Stem(line))
  }

  lemma {:induction false} FieldsOfClean(field: string, rest: string)
    requires Clean(field)
    ensures Fields(field + rest) == [field + Fields(rest)[0]] + Fields(rest)[1..]
  {
    if field == "" {
      assert field + rest == rest;
      assert field + Fields(rest)[0] == Fields(rest)[0];
    } else {
      FieldsOfClean(field[1..], rest);
      assert (field + rest)[1..] == field[1..] + rest;
      assert [field[0]] + (field[1..] + Fields(rest)[0]) == field + Fields(rest)[0];
    }
  }

  /** A clean field before a tab is split off whole. */
  lemma FieldsAfterTab(field: string, rest: string)
    requires Clean(field)
    ensures Fields(field + "\t" + rest) == [field] + Fields(rest)
  {
    FieldsOfClean(field, "\t" + rest);
    assert ("\t" + rest)[1..] == rest;
    assert Fields("\t" + rest) == [""] + Fields(rest);
    hide Fields;
    assert field + "" == field;
    assert field + "\t" + rest == field + ("\t" + rest);
  }

  lemma {:induction false} FieldsOfJoin(fields: seq<string>)
    requires fields != [] && forall f <- fields :: Clean(f)
    ensures Fields(Join(fields)) == fields
  {
    hide Fields, Clean;
    if |fields| == 1 {
      AtEnd(fields[0]);
    } else {
      FieldsOfJoin(fields[1..]);
      FieldsAfterTab(fields[0], Join(fields[1..]));
    }
  }

  lemma {:induction false} JoinOfFields(s: string)
    ensures Join(Fields(s)) == s
  {
    if s != "" {
      JoinOfFields(s[1..]);
      var rest := Fields(s[1..]);
      if s[0] == '\t' {
        assert ([""] + rest)[1..] == rest;
        assert s == "" + "\t" + s[1..];
      } else {
        PrependToJoin(s[0], rest);
        assert s == [s[0]] + s[1..];
      }
    }
  }

  lemma PrependToJoin(c: char, fields: seq<string>)
    requires fields != []
    ensures Join([[c] + fields[0]] + fields[1..]) == [c] + Join(fields)
  {
    var longer := [[c] + fields[0]] + fields[1..];
    if |fields| > 1 {
      assert longer[1..] == fields[1..];
      assert [c] + fields[0] + "\t" + Join(fields[1..]) == [c] + (fields[0] + "\t" + Join(fields[1..]));
    }
  }

  predicate Unbroken(s: string)
  {
    forall i :: 0 <= i < |s| ==> !IsBreak(s[i])
  }

  lemma {:induction false} StemOfUnbroken(s: string, rest: string)
    requires Unbroken(s) && (rest == "" || IsBreak(rest[0]))
    ensures Stem(s + rest) == s
  {
    if s == "" {
      assert s + rest == rest;
    } else {
      StemOfUnbroken(s[1..], rest);
      assert (s + rest)[1..] == s[1..] + rest;
    }
  }

  lemma {:induction false} JoinUnbroken(fields: seq<string>)
    requires fields != [] && forall f <- fields :: Clean(f)
    ensures Unbroken(Join(fields))
  {
    assert fields[0] in fields;
    if |fields| > 1 {
      JoinUnbroken(fields[1..]);
    }
  }

  /** Reading a written row gives back the fields that were written. */
  lemma SplitOfRow(fields: seq<string>)
    requires fields != [] && forall f <- fields :: Clean(f)
    ensures Split(Row(fields)) == fields
  {
    JoinUnbroken(fields);
    StemOfUnbroken(Join(fields), "\n");
    FieldsOfJoin(fields);
  }

  /** Sanitized text of any content survives the round trip. */
  lemma SanitizedRowsRoundTrip(texts: seq<string>)
    requires texts != []
    ensures var fields := seq(|texts|, i requires 0 <= i < |texts| => SanitizeTsvText(texts[i]));
            Split(Row(fields)) == fields
  {
    SplitOfRow(seq(|texts|, i requires 0 <= i < |texts| => SanitizeTsvText(texts[i])));
  }

  /** Joining the split fields of any line gives the line up to its first line break. */
  lemma {:induction false} JoinOfSplit(line: string)
    ensures Join(Split(line)) == Stem(line)
  {
    JoinOfFields(Stem(line));
  }

  lemma {:induction false} StemIsUnbroken(line: string)
    ensures Unbroken(Stem(line))
  {
    if line != "" && !IsBreak(line[0]) {
      StemIsUnbroken(line[1..]);
    }
  }

  lemma {:induction false} FieldsAreClean(s: string)
    requires Unbroken(s)
    ensures forall f <- Fields(s) :: Clean(f)
  {
    if s != "" {
      FieldsAreClean(s[1..]);
      var rest := Fields(s[1..]);
      assert rest[0] in rest;
      forall f | f in Fields(s) ensures Clean(f) {
        if f !in rest { assert f == "" || f == [s[0]] + rest[0]; }
      }
    }
  }

  /** Whatever the line, every field read from it is clean, so writing the fields and reading them again changes
      nothing. */
  lemma RereadIsStable(line: string)
    ensures forall f <- Split(line) :: Clean(f)
    ensures Split(Row(Split(line))) == Split(line)
  {
    StemIsUnbroken(line);
    FieldsAreClean(Stem(line));
    SplitOfRow(Split(line));
  }

  lemma AtTab(field: string, rest: string)
    requires Clean(field) && rest != "" && rest[0] == '\t'
    ensures Fields(field + Stem(rest)) == [field] + Fields(Stem(rest[1..]))
  {
    FieldsOfClean(field, Stem(rest));
    assert Stem(rest) == ['\t'] + Stem(rest[1..]);
    assert Stem(rest)[1..] == Stem(rest[1..]);
    assert field + "" == field;
  }

  lemma AtEnd(field: string)
    requires Clean(field)
    ensures Fields(field) == [field]
  {
    FieldsOfClean(field, "");
    assert field + "" == field;
  }

  /** The fields read so far, the current field `line[start..idx]`, and the unread rest make up the answer. */
  predicate Reading(line: string, fields: seq<string>, start: nat, idx: nat)
    requires start <= idx <= |line|
  {
    Clean(line[start..idx]) && Split(line) == fields + Fields(line[start..idx] + Stem(line[idx..]))
  }

  lemma ReadStart(line: string)
    ensures Reading(line, [], 0, 0)
  {
    assert line[0..] == line && line[0..0] + Stem(line) == Stem(line);
  }

  lemma ReadTab(line: string, fields: seq<string>, start: nat, idx: nat)
    requires start <= idx < |line| && Reading(line, fields, start, idx) && line[idx] == '\t'
    ensures Reading(line, fields + [line[start..idx]], idx + 1, idx + 1)
  {
    assert line[idx..][1..] == line[idx + 1..];
    AtTab(line[start..idx], line[idx..]);
    assert line[idx + 1..idx + 1] + Stem(line[idx + 1..]) == Stem(line[idx + 1..]);
  }

  lemma ReadChar(line: string, fields: seq<string>, start: nat, idx: nat)
    requires start <= idx < |line| && Reading(line, fields, start, idx) && line[idx] != '\t' && !IsBreak(line[idx])
    ensures Reading(line, fields, start, idx + 1)
  {
    assert line[idx..][1..] == line[idx + 1..];
    assert line[start..idx + 1] == line[start..idx] + [line[idx]];
    assert line[start..idx] + Stem(line[idx..]) == line[start..idx + 1] + Stem(line[idx + 1..]);
  }

  lemma ReadEnd(line: string, fields: seq<string>, start: nat, idx: nat)
    requires start <= idx <= |line| && Reading(line, fields, start, idx) && (idx < |line| ==> IsBreak(line[idx]))
    ensures Split(line) == fields + [line[start..idx]]
  {
    AtEnd(line[start..idx]);
    assert line[start..idx] + "" == line[start..idx];
  }

  /** The reader's loop: `start` is where the current field begins, `idx` the next byte to look at. */
  method SplitTsvLine(line: string) returns (fields: seq<string>)
    ensures fields == Split(line)
  {
    hide Reading, Split;
    fields := [];
    var start, idx := 0, 0;
    ReadStart(line);
    while idx < |line|
      invariant 0 <= start <= idx <= |line|
      invariant Reading(line, fields, start, idx)
    {
      if line[idx] == '\t' {
        ReadTab(line, fields, start, idx);
        fields := fields + [line[start..idx]];
        idx := idx + 1;
        start := idx;
      } else if IsBreak(line[idx]) {
        ReadEnd(line, fields, start, idx);
        fields := fields + [line[start..idx]];
        return;
      } else {
        ReadChar(line, fields, start, idx);
        idx := idx + 1;
      }
    }
    ReadEnd(line, fields, start, idx);
    assert line[start..idx] == line[start..];
    fields := fields + [line[start..]];
  }
}
