/** The quote-aware CSV tokenizer of js/utils/csv.js. The specification is
    layered: line endings are normalised, a quote-state scanner turns the
    text into tokens (a field character, an unquoted comma, an unquoted line
    feed), the tokens are split into lines and fields, every field is trimmed
    and all-empty rows are dropped. ParseCSV is the source's single loop,
    proved to compute exactly that. */
module Csv {
  import opened Seqs
  import opened Text

  /** One scanned input position: a character of field content, an unquoted
      comma, or an unquoted line feed. */
  datatype Tok = Ch(c: char) | Sep | Eol

  /** `s.replace(/\r\n?/g, '\n')`: CRLF and lone CR become LF. */
  function NormalizeNewlines(s: string): (r: string)
    ensures '\r' !in r
    ensures forall c :: c in r ==> c in s || c == '\n'
  {
    if s == [] then []
    else if s[0] == '\r' then
      if |s| > 1 && s[1] == '\n' then "\n" + NormalizeNewlines(s[2..])
      else "\n" + NormalizeNewlines(s[1..])
    else [s[0]] + NormalizeNewlines(s[1..])
  }

  /** The scanner's tokens for `s`, starting inside quotes when `quoted`.
      Inside quotes a doubled quote is one literal quote and a single quote
      closes; outside, a quote opens and is not content. */
  function Lex(s: string, quoted: bool): seq<Tok>
  {
    if s == [] then []
    else if quoted then
      if s[0] == '"' then
        if |s| > 1 && s[1] == '"' then [Ch('"')] + Lex(s[2..], true)
        else Lex(s[1..], false)
      else [Ch(s[0])] + Lex(s[1..], true)
    else if s[0] == '"' then Lex(s[1..], true)
    else if s[0] == ',' then [Sep] + Lex(s[1..], false)
    else if s[0] == '\n' then [Eol] + Lex(s[1..], false)
    else [Ch(s[0])] + Lex(s[1..], false)
  }

  /** Whether the scanner is inside quotes once all of `s` is read. */
  function QuotedAfter(s: string, quoted: bool): bool
  {
    if s == [] then quoted
    else if quoted then
      if s[0] == '"' then
        if |s| > 1 && s[1] == '"' then QuotedAfter(s[2..], true)
        else QuotedAfter(s[1..], false)
      else QuotedAfter(s[1..], true)
    else QuotedAfter(s[1..], s[0] == '"')
  }

  /** The content characters among the tokens, in order. */
  function Chars(t: seq<Tok>): string
  {
    if t == [] then [] else Chars(t[..|t| - 1]) + (if Last(t).Ch? then [Last(t).c] else [])
  }

  /** The trimmed text of each field. */
  function TrimFields(segs: seq<seq<Tok>>): (r: seq<string>)
    ensures |r| == |segs|
  {
    if segs == [] then [] else TrimFields(segs[..|segs| - 1]) + [Trim(Chars(Last(segs)))]
  }

  /** The fields of one line: split at unquoted commas, each trimmed. */
  function FieldsOf(line: seq<Tok>): seq<string>
  {
    TrimFields(Split(line, Sep))
  }

  /** The fields of each line. */
  function RowsOf(lines: seq<seq<Tok>>): (r: seq<seq<string>>)
    ensures |r| == |lines|
  {
    if lines == [] then [] else RowsOf(lines[..|lines| - 1]) + [FieldsOf(Last(lines))]
  }

  predicate IsBlank(row: seq<string>) {
    forall k :: 0 <= k < |row| ==> row[k] == ""
  }

  /** `rows.filter(r => r.some(x => x !== ''))`. */
  function DropBlank(rows: seq<seq<string>>): seq<seq<string>>
  {
    if rows == [] then []
    else (if IsBlank(rows[0]) then [] else [rows[0]]) + DropBlank(rows[1..])
  }

  /** The filter keeps exactly the rows that are not blank, in order. */
  lemma {:induction false} DropBlankSpec(rows: seq<seq<string>>)
    ensures forall k :: 0 <= k < |DropBlank(rows)| ==> !IsBlank(DropBlank(rows)[k])
    ensures forall x :: x in DropBlank(rows) <==> x in rows && !IsBlank(x)
  {
    if rows != [] {
      DropBlankSpec(rows[1..]);
      assert rows == [rows[0]] + rows[1..];
    }
  }

  /** The rows the tokenizer returns for `text`. */
  function Parse(text: string): seq<seq<string>>
  {
    DropBlank(RowsOf(Split(Lex(NormalizeNewlines(text), false), Eol)))
  }

  // ---------------------------------------------------------------------
  // The tokenizer loop

  /** The loop state (finished rows, finished fields of the current row,
      raw text of the current field) agrees with the token lines and the
      fields of the last, still open, line. */
  ghost predicate Scanned(lines: seq<seq<Tok>>, segs: seq<seq<Tok>>,
                          all: seq<seq<string>>, row: seq<string>, f: string)
  {
    lines != [] && segs != []
    && all == RowsOf(lines[..|lines| - 1])
    && row == TrimFields(segs[..|segs| - 1])
    && f == Chars(Last(segs))
  }

  /** js/utils/csv.js parseCSV: one pass over the normalised text with a
      quote flag, then the blank-row filter. */
  method ParseCSV(text: string) returns (rows: seq<seq<string>>)
    ensures rows == Parse(text)
    ensures text == [] ==> rows == []
    ensures forall k :: 0 <= k < |rows| ==> !IsBlank(rows[k])
    ensures forall k, j :: 0 <= k < |rows| && 0 <= j < |rows[k]| ==> IsTrimmed(rows[k][j])
  {
    var s := NormalizeNewlines(text);
    var all: seq<seq<string>> := [];
    var i, f, row, q := 0, "", [], false;
    ghost var done: seq<Tok> := [];
    ghost var lines: seq<seq<Tok>> := [[]];
    ghost var segs: seq<seq<Tok>> := [[]];
    while i < |s|
      invariant 0 <= i <= |s|
      invariant done + Lex(s[i..], q) == Lex(s, false)
      invariant lines == Split(done, Eol) && segs == Split(Last(lines), Sep)
      invariant Scanned(lines, segs, all, row, f)
    {
      var c := s[i];
      LexAt(s, i, q);
      if q {
        if c == '"' {
          if i + 1 < |s| && s[i + 1] == '"' {
            SplitSnoc(done, Ch('"'), Eol);
            SplitSnoc(Last(lines), Ch('"'), Sep);
            ScanChar(lines, segs, all, row, f, '"');
            f := f + ['"'];
            AppendAssoc(done, [Ch('"')], Lex(s[i + 2..], true));
            done := done + [Ch('"')];
            lines, segs := SnocParts(lines, Ch('"'), Eol), SnocParts(segs, Ch('"'), Sep);
            i := i + 1;
          } else {
            q := false;
          }
        } else {
          SplitSnoc(done, Ch(c), Eol);
          SplitSnoc(Last(lines), Ch(c), Sep);
          ScanChar(lines, segs, all, row, f, c);
          f := f + [c];
          AppendAssoc(done, [Ch(c)], Lex(s[i + 1..], q));
          done := done + [Ch(c)];
          lines, segs := SnocParts(lines, Ch(c), Eol), SnocParts(segs, Ch(c), Sep);
        }
      } else {
        if c == '"' {
          q := true;
        } else if c == ',' {
          SplitSnoc(done, Sep, Eol);
          SplitSnoc(Last(lines), Sep, Sep);
          ScanSep(lines, segs, all, row, f);
          row := row + [Trim(f)];
          f := "";
          AppendAssoc(done, [Sep], Lex(s[i + 1..], false));
          done := done + [Sep];
          lines, segs := SnocParts(lines, Sep, Eol), SnocParts(segs, Sep, Sep);
        } else if c == '\n' {
          SplitSnoc(done, Eol, Eol);
          ScanEol(lines, segs, all, row, f);
          row := row + [Trim(f)];
          all := all + [row];
          row := [];
          f := "";
          AppendAssoc(done, [Eol], Lex(s[i + 1..], false));
          done := done + [Eol];
          lines, segs := SnocParts(lines, Eol, Eol), [[]];
        } else {
          SplitSnoc(done, Ch(c), Eol);
          SplitSnoc(Last(lines), Ch(c), Sep);
          ScanChar(lines, segs, all, row, f, c);
          f := f + [c];
          AppendAssoc(done, [Ch(c)], Lex(s[i + 1..], q));
          done := done + [Ch(c)];
          lines, segs := SnocParts(lines, Ch(c), Eol), SnocParts(segs, Ch(c), Sep);
        }
      }
      i := i + 1;
    }
    assert s[i..] == [] && done + [] == done;
    ScanFinish(lines, segs, all, row, f);
    ghost var before, last := all, row + [Trim(f)];
    if |f| > 0 || |row| > 0 {
      row := row + [Trim(f)];
      all := all + [row];
    }
    rows := DropBlank(all);
    DropBlankSpec(all);
    FinishParse(text, lines, before, last);
    DropBlankSnoc(before, last);
    ParseTrimmed(text);
  }

  /** The rows of the whole text are those of every line but the last, then
      the last line's row unless it is blank. */
  lemma FinishParse(text: string, lines: seq<seq<Tok>>, before: seq<seq<string>>, last: seq<string>)
    requires lines == Split(Lex(NormalizeNewlines(text), false), Eol)
    requires before + [last] == RowsOf(lines)
    ensures Parse(text) == DropBlank(before) + (if IsBlank(last) then [] else [last])
  {
    DropBlankSnoc(before, last);
  }

  /** One step of the scanner at position `i`. */
  lemma LexAt(s: string, i: nat, q: bool)
    requires i < |s|
    ensures q && s[i] == '"' && i + 1 < |s| && s[i + 1] == '"' ==> Lex(s[i..], q) == [Ch('"')] + Lex(s[i + 2..], true)
    ensures q && s[i] == '"' && !(i + 1 < |s| && s[i + 1] == '"') ==> Lex(s[i..], q) == Lex(s[i + 1..], false)
    ensures q && s[i] != '"' ==> Lex(s[i..], q) == [Ch(s[i])] + Lex(s[i + 1..], true)
    ensures !q && s[i] == '"' ==> Lex(s[i..], q) == Lex(s[i + 1..], true)
    ensures !q && s[i] == ',' ==> Lex(s[i..], q) == [Sep] + Lex(s[i + 1..], false)
    ensures !q && s[i] == '\n' ==> Lex(s[i..], q) == [Eol] + Lex(s[i + 1..], false)
    ensures !q && s[i] != '"' && s[i] != ',' && s[i] != '\n' ==> Lex(s[i..], q) == [Ch(s[i])] + Lex(s[i + 1..], false)
  {
    assert s[i..][1..] == s[i + 1..];
    if i + 1 < |s| {
      assert s[i..][2..] == s[i + 2..];
    }
  }

  lemma RowsOfSnoc(lines: seq<seq<Tok>>, l: seq<Tok>)
    ensures RowsOf(lines + [l]) == RowsOf(lines) + [FieldsOf(l)]
  {
    assert (lines + [l])[..|lines|] == lines;
  }

  lemma TrimFieldsSnoc(segs: seq<seq<Tok>>, x: seq<Tok>)
    ensures TrimFields(segs + [x]) == TrimFields(segs) + [Trim(Chars(x))]
  {
    assert (segs + [x])[..|segs|] == segs;
  }

  lemma CharsSnoc(t: seq<Tok>, c: char)
    ensures Chars(t + [Ch(c)]) == Chars(t) + [c]
  {
    assert (t + [Ch(c)])[..|t|] == t;
  }

  /** A content character extends the open field. */
  lemma ScanChar(lines: seq<seq<Tok>>, segs: seq<seq<Tok>>,
                 all: seq<seq<string>>, row: seq<string>, f: string, c: char)
    requires Scanned(lines, segs, all, row, f)
    ensures Scanned(SnocParts(lines, Ch(c), Eol), SnocParts(segs, Ch(c), Sep), all, row, f + [c])
    ensures Last(SnocParts(lines, Ch(c), Eol)) == Last(lines) + [Ch(c)]
  {
    var lines', segs' := SnocParts(lines, Ch(c), Eol), SnocParts(segs, Ch(c), Sep);
    assert lines'[..|lines'| - 1] == lines[..|lines| - 1];
    assert segs'[..|segs'| - 1] == segs[..|segs| - 1];
    CharsSnoc(Last(segs), c);
  }

  /** An unquoted comma closes the open field. */
  lemma ScanSep(lines: seq<seq<Tok>>, segs: seq<seq<Tok>>,
                all: seq<seq<string>>, row: seq<string>, f: string)
    requires Scanned(lines, segs, all, row, f)
    ensures Scanned(SnocParts(lines, Sep, Eol), SnocParts(segs, Sep, Sep), all, row + [Trim(f)], "")
    ensures Last(SnocParts(lines, Sep, Eol)) == Last(lines) + [Sep]
  {
    var lines', segs' := SnocParts(lines, Sep, Eol), SnocParts(segs, Sep, Sep);
    assert lines'[..|lines'| - 1] == lines[..|lines| - 1];
    assert segs'[..|segs'| - 1] == segs;
    FrontLast(segs);
    TrimFieldsSnoc(segs[..|segs| - 1], Last(segs));
  }

  /** An unquoted line feed closes the open field and the open row. */
  lemma ScanEol(lines: seq<seq<Tok>>, segs: seq<seq<Tok>>,
                all: seq<seq<string>>, row: seq<string>, f: string)
    requires Scanned(lines, segs, all, row, f)
    requires segs == Split(Last(lines), Sep)
    ensures Scanned(SnocParts(lines, Eol, Eol), [[]], all + [row + [Trim(f)]], [], "")
    ensures Last(SnocParts(lines, Eol, Eol)) == []
  {
    var lines' := SnocParts(lines, Eol, Eol);
    assert lines'[..|lines'| - 1] == lines;
    ScanFinish(lines, segs, all, row, f);
  }

  /** At the end of input the open row completes the rows of all lines. */
  lemma ScanFinish(lines: seq<seq<Tok>>, segs: seq<seq<Tok>>,
                   all: seq<seq<string>>, row: seq<string>, f: string)
    requires Scanned(lines, segs, all, row, f)
    requires segs == Split(Last(lines), Sep)
    ensures all + [row + [Trim(f)]] == RowsOf(lines)
    ensures |f| == 0 && |row| == 0 ==> row + [Trim(f)] == [""]
  {
    FrontLast(segs);
    TrimFieldsSnoc(segs[..|segs| - 1], Last(segs));
    FrontLast(lines);
    RowsOfSnoc(lines[..|lines| - 1], Last(lines));
  }

  lemma {:induction false} DropBlankSnoc(rows: seq<seq<string>>, r: seq<string>)
    ensures DropBlank(rows + [r]) == DropBlank(rows) + (if IsBlank(r) then [] else [r])
  {
    if rows == [] {
      assert rows + [r] == [r];
    } else {
      assert (rows + [r])[1..] == rows[1..] + [r];
      assert (rows + [r])[0] == rows[0];
      DropBlankSnoc(rows[1..], r);
      var h: seq<seq<string>> := if IsBlank(rows[0]) then [] else [rows[0]];
      var t: seq<seq<string>> := if IsBlank(r) then [] else [r];
      assert DropBlank(rows + [r]) == h + (DropBlank(rows[1..]) + t);
      assert DropBlank(rows) == h + DropBlank(rows[1..]);
      AppendAssoc(h, DropBlank(rows[1..]), t);
    }
  }

  /** Every field of the row is trimmed. */
  predicate FieldsTrimmed(row: seq<string>) {
    forall j :: 0 <= j < |row| ==> IsTrimmed(row[j])
  }

  lemma {:induction false} TrimFieldsTrimmed(segs: seq<seq<Tok>>)
    ensures FieldsTrimmed(TrimFields(segs))
  {
    if segs != [] {
      var f := segs[..|segs| - 1];
      TrimFieldsTrimmed(f);
      SnocTrimmed(TrimFields(f), Trim(Chars(Last(segs))));
    }
  }

  lemma SnocTrimmed(row: seq<string>, x: string)
    requires FieldsTrimmed(row) && IsTrimmed(x)
    ensures FieldsTrimmed(row + [x])
  {
    forall j | 0 <= j < |row| + 1
      ensures IsTrimmed((row + [x])[j])
    {
      if j < |row| {
        assert (row + [x])[j] == row[j];
      } else {
        assert (row + [x])[j] == x;
      }
    }
  }

  lemma {:induction false} RowsOfTrimmed(lines: seq<seq<Tok>>)
    ensures forall r :: r in RowsOf(lines) ==> FieldsTrimmed(r)
  {
    if lines != [] {
      RowsOfTrimmed(lines[..|lines| - 1]);
      TrimFieldsTrimmed(Split(Last(lines), Sep));
    }
  }

  /** Every field the tokenizer returns is trimmed. */
  lemma ParseTrimmed(text: string)
    ensures forall k, j :: 0 <= k < |Parse(text)| && 0 <= j < |Parse(text)[k]| ==> IsTrimmed(Parse(text)[k][j])
  {
    var rows := Parse(text);
    RowsOfTrimmed(Split(Lex(NormalizeNewlines(text), false), Eol));
    DropBlankSpec(RowsOf(Split(Lex(NormalizeNewlines(text), false), Eol)));
    forall k | 0 <= k < |rows| ensures FieldsTrimmed(rows[k]) {
      assert rows[k] in rows;
    }
  }
}
