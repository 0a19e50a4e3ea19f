/** What the tokenizer of js/utils/csv.js promises, stated about its
    specification Parse: line endings do not matter, quoted fields keep
    commas, line feeds and doubled quotes as content, an unterminated quote
    runs to the end of the input, a trailing line feed adds no row, and a
    line has one field more than it has unquoted commas. */
module CsvProps {
  import opened Seqs
  import opened Text
  import opened Csv

  // ---------------------------------------------------------------------
  // Line endings

  /** Lines joined by a line terminator. */
  function JoinLines(lines: seq<string>, eol: string): string
  {
    if lines == [] then []
    else if |lines| == 1 then lines[0]
    else lines[0] + eol + JoinLines(lines[1..], eol)
  }

  /** `c` occurs in none of the lines. */
  predicate Absent(lines: seq<string>, c: char)
  {
    forall k :: 0 <= k < |lines| ==> c !in lines[k]
  }

  lemma {:induction false} JoinLinesAbsent(lines: seq<string>, eol: string, c: char)
    requires Absent(lines, c) && c !in eol
    ensures c !in JoinLines(lines, eol)
  {
    if |lines| > 1 {
      JoinLinesAbsent(lines[1..], eol, c);
    }
  }

  /** Normalisation works piecewise when the cut does not split a CR LF. */
  lemma {:induction false} NormalizeAppend(a: string, b: string)
    requires a == [] || a[|a| - 1] != '\r'
    ensures NormalizeNewlines(a + b) == NormalizeNewlines(a) + NormalizeNewlines(b)
  {
    if a != [] {
      assert (a + b)[1..] == a[1..] + b;
      if a[0] == '\r' && a[1] == '\n' {
        assert (a + b)[2..] == a[2..] + b;
        NormalizeAppend(a[2..], b);
        AppendAssoc("\n", NormalizeNewlines(a[2..]), NormalizeNewlines(b));
        assert NormalizeNewlines(a + b) == "\n" + NormalizeNewlines(a[2..] + b);
        assert NormalizeNewlines(a) == "\n" + NormalizeNewlines(a[2..]);
      } else {
        NormalizeAppend(a[1..], b);
        var h := if a[0] == '\r' then "\n" else [a[0]];
        AppendAssoc(h, NormalizeNewlines(a[1..]), NormalizeNewlines(b));
        assert NormalizeNewlines(a + b) == h + NormalizeNewlines(a[1..] + b);
        assert NormalizeNewlines(a) == h + NormalizeNewlines(a[1..]);
      }
    } else {
      assert a + b == b;
    }
  }

  /** Text without CR is left as it is. */
  lemma {:induction false} NormalizeIdentity(s: string)
    requires '\r' !in s
    ensures NormalizeNewlines(s) == s
  {
    if s != [] {
      NormalizeIdentity(s[1..]);
    }
  }

  lemma NormalizeJoined(lines: seq<string>)
    requires Absent(lines, '\r') && Absent(lines, '\n')
    ensures NormalizeNewlines(JoinLines(lines, "\r\n")) == JoinLines(lines, "\n")
    ensures NormalizeNewlines(JoinLines(lines, "\r")) == JoinLines(lines, "\n")
  {
    NormalizeJoinedCrLf(lines);
    NormalizeJoinedCr(lines);
  }

  lemma {:induction false} NormalizeJoinedCrLf(lines: seq<string>)
    requires Absent(lines, '\r')
    ensures NormalizeNewlines(JoinLines(lines, "\r\n")) == JoinLines(lines, "\n")
  {
    if |lines| == 1 {
      NormalizeIdentity(lines[0]);
    } else if |lines| > 1 {
      var l0 := lines[0];
      assert '\r' !in l0;
      NormalizeIdentity(l0);
      NormalizeJoinedCrLf(lines[1..]);
      var r1 := JoinLines(lines[1..], "\r\n");
      assert JoinLines(lines, "\r\n") == l0 + ("\r\n" + r1);
      NormalizeAppend(l0, "\r\n" + r1);
      NormalizeCrLfHead(r1);
      assert JoinLines(lines, "\n") == l0 + ("\n" + JoinLines(lines[1..], "\n"));
    }
  }

  lemma {:induction false} NormalizeJoinedCr(lines: seq<string>)
    requires Absent(lines, '\r') && Absent(lines, '\n')
    ensures NormalizeNewlines(JoinLines(lines, "\r")) == JoinLines(lines, "\n")
  {
    if |lines| == 1 {
      NormalizeIdentity(lines[0]);
    } else if |lines| > 1 {
      var l0 := lines[0];
      assert '\r' !in l0;
      NormalizeIdentity(l0);
      NormalizeJoinedCr(lines[1..]);
      var r2 := JoinLines(lines[1..], "\r");
      assert JoinLines(lines, "\r") == l0 + ("\r" + r2);
      NormalizeAppend(l0, "\r" + r2);
      JoinLinesAbsent(lines[1..], "\r", '\n');
      NormalizeCrHead(r2);
      assert JoinLines(lines, "\n") == l0 + ("\n" + JoinLines(lines[1..], "\n"));
    }
  }

  lemma NormalizeCrLfHead(r: string)
    ensures NormalizeNewlines("\r\n" + r) == "\n" + NormalizeNewlines(r)
  {
    assert ("\r\n" + r)[2..] == r;
  }

  lemma NormalizeCrHead(r: string)
    requires '\n' !in r
    ensures NormalizeNewlines("\r" + r) == "\n" + NormalizeNewlines(r)
  {
    assert ("\r" + r)[1..] == r;
    assert r == [] || r[0] != '\n';
  }

  /** CRLF, lone CR and LF line endings give the same rows. */
  lemma LineEndings(lines: seq<string>)
    requires Absent(lines, '\r') && Absent(lines, '\n')
    ensures Parse(JoinLines(lines, "\r\n")) == Parse(JoinLines(lines, "\n"))
    ensures Parse(JoinLines(lines, "\r")) == Parse(JoinLines(lines, "\n"))
  {
    NormalizeJoined(lines);
    JoinLinesAbsent(lines, "\n", '\r');
    NormalizeIdentity(JoinLines(lines, "\n"));
  }

  // ---------------------------------------------------------------------
  // Quoted fields

  /** A field written the way the tokenizer reads it back: inner quotes
      doubled, the whole wrapped in quotes. */
  function Escape(x: string): string
  {
    if x == [] then [] else (if x[0] == '"' then "\"\"" else [x[0]]) + Escape(x[1..])
  }

  function Quote(x: string): string
  {
    "\"" + Escape(x) + "\""
  }

  /** The quoted fields of a row, separated by commas. */
  function QuoteRow(fields: seq<string>): string
  {
    Join(QuotedParts(fields), ',')
  }

  function QuotedParts(fields: seq<string>): (r: seq<string>)
    ensures |r| == |fields|
  {
    if fields == [] then [] else [Quote(fields[0])] + QuotedParts(fields[1..])
  }

  /** Every character as field content. */
  function ChTokens(x: string): (r: seq<Tok>)
    ensures |r| == |x|
  {
    if x == [] then [] else [Ch(x[0])] + ChTokens(x[1..])
  }

  /** The content tokens of each field. */
  function TokParts(fields: seq<string>): (r: seq<seq<Tok>>)
    ensures |r| == |fields|
  {
    if fields == [] then [] else [ChTokens(fields[0])] + TokParts(fields[1..])
  }

  /** Each field trimmed. */
  function TrimAll(fields: seq<string>): (r: seq<string>)
    ensures |r| == |fields|
  {
    if fields == [] then [] else TrimAll(fields[..|fields| - 1]) + [Trim(Last(fields))]
  }

  lemma {:induction false} ChTokensSnoc(x: string, c: char)
    ensures ChTokens(x + [c]) == ChTokens(x) + [Ch(c)]
  {
    if x == [] {
      assert x + [c] == [c];
    } else {
      assert (x + [c])[1..] == x[1..] + [c];
      ChTokensSnoc(x[1..], c);
    }
  }

  lemma {:induction false} TokPartsSnoc(fields: seq<string>, x: string)
    ensures TokParts(fields + [x]) == TokParts(fields) + [ChTokens(x)]
  {
    if fields == [] {
      assert fields + [x] == [x];
    } else {
      assert (fields + [x])[1..] == fields[1..] + [x];
      TokPartsSnoc(fields[1..], x);
    }
  }

  lemma {:induction false} CharsChTokens(x: string)
    ensures Chars(ChTokens(x)) == x
  {
    if x != [] {
      var n := |x|;
      FrontLast(x);
      ChTokensSnoc(x[..n - 1], x[n - 1]);
      CharsSnoc(ChTokens(x[..n - 1]), x[n - 1]);
      CharsChTokens(x[..n - 1]);
    }
  }

  lemma {:induction false} TrimFieldsTokParts(fields: seq<string>)
    ensures TrimFields(TokParts(fields)) == TrimAll(fields)
  {
    if fields != [] {
      var n := |fields|;
      FrontLast(fields);
      TokPartsSnoc(fields[..n - 1], fields[n - 1]);
      TrimFieldsSnoc(TokParts(fields[..n - 1]), ChTokens(fields[n - 1]));
      TrimFieldsTokParts(fields[..n - 1]);
      CharsChTokens(fields[n - 1]);
    }
  }

  lemma {:induction false} TrimAllTrimmed(fields: seq<string>)
    requires forall k :: 0 <= k < |fields| ==> IsTrimmed(fields[k])
    ensures TrimAll(fields) == fields
  {
    if fields != [] {
      var n := |fields|;
      TrimAllTrimmed(fields[..n - 1]);
      TrimTrimmed(fields[n - 1]);
      FrontLast(fields);
    }
  }

  /** Inside quotes a doubled quote is one quote character and the closing
      quote ends the quoted run; commas and line feeds stay content. */
  lemma {:induction false} LexEscaped(x: string, rest: string)
    requires rest == [] || rest[0] != '"'
    ensures Lex(Escape(x) + "\"" + rest, true) == ChTokens(x) + Lex(rest, false)
  {
    if x == [] {
      assert Escape(x) + "\"" + rest == "\"" + rest;
      LexClose(rest);
    } else {
      LexEscaped(x[1..], rest);
      var t := Escape(x[1..]) + "\"" + rest;
      assert ChTokens(x) == [Ch(x[0])] + ChTokens(x[1..]);
      AppendAssoc([Ch(x[0])], ChTokens(x[1..]), Lex(rest, false));
      if x[0] == '"' {
        EscapeQuoteHead(x, rest);
        LexDoubled(t);
      } else {
        EscapeOtherHead(x, rest);
        LexQuotedChar(x[0], t);
      }
    }
  }

  lemma EscapeQuoteHead(x: string, rest: string)
    requires x != [] && x[0] == '"'
    ensures Escape(x) + "\"" + rest == "\"\"" + (Escape(x[1..]) + "\"" + rest)
  {
  }

  lemma EscapeOtherHead(x: string, rest: string)
    requires x != [] && x[0] != '"'
    ensures Escape(x) + "\"" + rest == [x[0]] + (Escape(x[1..]) + "\"" + rest)
  {
  }

  /** A quote not followed by another closes the quoted run. */
  lemma LexClose(rest: string)
    requires rest == [] || rest[0] != '"'
    ensures Lex("\"" + rest, true) == Lex(rest, false)
  {
    assert ("\"" + rest)[1..] == rest;
  }

  /** Inside quotes, a doubled quote is one quote character. */
  lemma LexDoubled(t: string)
    ensures Lex("\"\"" + t, true) == [Ch('"')] + Lex(t, true)
  {
    assert ("\"\"" + t)[2..] == t;
  }

  /** Inside quotes, any other character is content. */
  lemma LexQuotedChar(c: char, t: string)
    requires c != '"'
    ensures Lex([c] + t, true) == [Ch(c)] + Lex(t, true)
  {
    assert ([c] + t)[1..] == t;
  }

  lemma {:induction false} LexQuoteRow(fields: seq<string>)
    requires |fields| >= 1
    ensures Lex(QuoteRow(fields), false) == Join(TokParts(fields), Sep)
  {
    var x := fields[0];
    if |fields| == 1 {
      LexEscaped(x, "");
      assert QuoteRow(fields) == "\"" + (Escape(x) + "\"" + "");
      LexOpen(Escape(x) + "\"" + "");
    } else {
      LexQuoteRow(fields[1..]);
      var rest := QuoteRow(fields[1..]);
      LexEscaped(x, "," + rest);
      QuoteRowCons(fields);
      LexOpen(Escape(x) + "\"" + ("," + rest));
      LexComma(rest);
      assert TokParts(fields) == [ChTokens(x)] + TokParts(fields[1..]);
      AppendAssoc(ChTokens(x), [Sep], Lex(rest, false));
    }
  }

  /** A row of several fields is its first quoted field, a comma and the
      rest of the row. */
  lemma QuoteRowCons(fields: seq<string>)
    requires |fields| >= 2
    ensures QuoteRow(fields) == "\"" + (Escape(fields[0]) + "\"" + ("," + QuoteRow(fields[1..])))
  {
    assert QuotedParts(fields) == [Quote(fields[0])] + QuotedParts(fields[1..]);
  }

  /** Outside quotes, a quote opens a quoted run. */
  lemma LexOpen(t: string)
    ensures Lex("\"" + t, false) == Lex(t, true)
  {
    assert ("\"" + t)[1..] == t;
  }

  /** Outside quotes, a comma separates fields. */
  lemma LexComma(t: string)
    ensures Lex("," + t, false) == [Sep] + Lex(t, false)
  {
    assert ("," + t)[1..] == t;
  }

  /** A single line's tokens hold no line break. */
  lemma SplitWhole<T>(s: seq<T>, sep: T)
    requires sep !in s
    ensures Split(s, sep) == [s]
  {
    SplitPrefix(s, [], sep);
    assert s + [] == s;
  }

  lemma {:induction false} JoinAbsent<T>(parts: seq<seq<T>>, sep: T, x: T)
    requires x != sep
    requires forall k :: 0 <= k < |parts| ==> x !in parts[k]
    ensures x !in Join(parts, sep)
  {
    if |parts| > 1 {
      JoinAbsent(parts[1..], sep, x);
    }
  }

  lemma {:induction false} ChTokensPlain(x: string)
    ensures Eol !in ChTokens(x) && Sep !in ChTokens(x)
  {
    if x != [] {
      ChTokensPlain(x[1..]);
    }
  }

  lemma {:induction false} TokPartsPlain(fields: seq<string>)
    ensures forall k :: 0 <= k < |TokParts(fields)| ==> Eol !in TokParts(fields)[k] && Sep !in TokParts(fields)[k]
  {
    if fields != [] {
      TokPartsPlain(fields[1..]);
      ChTokensPlain(fields[0]);
    }
  }

  /** The rows of a text whose tokens are the fields of one line. */
  lemma OneLine(text: string, fields: seq<string>)
    requires |fields| >= 1
    requires Lex(NormalizeNewlines(text), false) == Join(TokParts(fields), Sep)
    ensures Parse(text) == if IsBlank(TrimAll(fields)) then [] else [TrimAll(fields)]
  {
    var parts := TokParts(fields);
    TokPartsPlain(fields);
    JoinAbsent(parts, Sep, Eol);
    SplitWhole(Join(parts, Sep), Eol);
    SplitJoin(parts, Sep);
    TrimFieldsTokParts(fields);
    var line := Join(parts, Sep);
    assert RowsOf([line]) == [FieldsOf(line)];
    DropBlankOne(TrimAll(fields));
  }

  lemma DropBlankOne(row: seq<string>)
    ensures DropBlank([row]) == if IsBlank(row) then [] else [row]
  {
    assert [row][1..] == [];
  }

  lemma {:induction false} EscapeAbsent(x: string, c: char)
    requires c != '"' && c !in x
    ensures c !in Escape(x)
  {
    if x != [] {
      EscapeAbsent(x[1..], c);
    }
  }

  lemma {:induction false} QuotedPartsAbsent(fields: seq<string>, c: char)
    requires c != '"' && Absent(fields, c)
    ensures forall k :: 0 <= k < |QuotedParts(fields)| ==> c !in QuotedParts(fields)[k]
  {
    if fields != [] {
      QuotedPartsAbsent(fields[1..], c);
      EscapeAbsent(fields[0], c);
    }
  }

  /** Writing a row with every field quoted and reading it back gives the
      row, whatever commas, line feeds and quotes its fields hold. */
  lemma QuotedRowRoundTrip(fields: seq<string>)
    requires |fields| >= 1 && !IsBlank(fields)
    requires forall k :: 0 <= k < |fields| ==> IsTrimmed(fields[k]) && '\r' !in fields[k]
    ensures Parse(QuoteRow(fields)) == [fields]
  {
    var q := QuotedParts(fields);
    QuotedPartsAbsent(fields, '\r');
    JoinAbsent(q, ',', '\r');
    NormalizeIdentity(QuoteRow(fields));
    LexQuoteRow(fields);
    OneLine(QuoteRow(fields), fields);
    TrimAllTrimmed(fields);
  }

  /** An opening quote that is never closed takes the rest of the input,
      commas and line feeds included, into one field. */
  lemma UnterminatedQuote(x: string)
    requires '"' !in x && '\r' !in x
    ensures Parse("\"" + x) == if Trim(x) == "" then [] else [[Trim(x)]]
  {
    var text := "\"" + x;
    assert NormalizeNewlines(text) == text by {
      NormalizeIdentity(text);
    }
    assert Lex(text, false) == ChTokens(x) by {
      assert text[1..] == x;
      LexPlainQuoted(x);
    }
    assert Join(TokParts([x]), Sep) == ChTokens(x);
    OneLine(text, [x]);
    assert TrimAll([x]) == [Trim(x)];
    assert IsBlank([Trim(x)]) <==> Trim(x) == "" by {
      assert [Trim(x)][0] == Trim(x);
    }
  }

  lemma {:induction false} LexPlainQuoted(x: string)
    requires '"' !in x
    ensures Lex(x, true) == ChTokens(x)
  {
    if x != [] {
      LexPlainQuoted(x[1..]);
      assert ChTokens(x) == [Ch(x[0])] + ChTokens(x[1..]);
    }
  }

  // ---------------------------------------------------------------------
  // Trailing line feed

  lemma {:induction false} NormalizeSnocLF(t: string)
    ensures NormalizeNewlines(t + "\n") ==
      if t != [] && t[|t| - 1] == '\r' then NormalizeNewlines(t) else NormalizeNewlines(t) + "\n"
  {
    if t == [] {
      assert t + "\n" == "\n";
    } else if t[0] == '\r' && |t| > 1 && t[1] == '\n' {
      var u := t[2..];
      assert (t + "\n")[2..] == u + "\n";
      NormalizeSnocLF(u);
      assert NormalizeNewlines(t + "\n") == "\n" + NormalizeNewlines(u + "\n");
      assert NormalizeNewlines(t) == "\n" + NormalizeNewlines(u);
      assert u != [] ==> u[|u| - 1] == t[|t| - 1];
      AppendAssoc("\n", NormalizeNewlines(u), "\n");
    } else if t[0] == '\r' && |t| == 1 {
      assert t + "\n" == "\r\n";
      assert "\r\n"[2..] == [];
    } else {
      var u := t[1..];
      assert (t + "\n")[1..] == u + "\n";
      NormalizeSnocLF(u);
      var h := if t[0] == '\r' then "\n" else [t[0]];
      assert NormalizeNewlines(t + "\n") == h + NormalizeNewlines(u + "\n");
      assert NormalizeNewlines(t) == h + NormalizeNewlines(u);
      assert u != [] ==> u[|u| - 1] == t[|t| - 1];
      AppendAssoc(h, NormalizeNewlines(u), "\n");
    }
  }

  /** A line feed read outside quotes ends the token list with a line end. */
  lemma {:induction false} LexSnocLF(u: string, q: bool)
    requires !QuotedAfter(u, q)
    ensures Lex(u + "\n", q) == Lex(u, q) + [Eol]
  {
    if u == [] {
      assert u + "\n" == "\n";
      assert "\n"[1..] == [];
    } else {
      assert (u + "\n")[1..] == u[1..] + "\n";
      if q && u[0] == '"' && |u| > 1 && u[1] == '"' {
        assert (u + "\n")[2..] == u[2..] + "\n";
        LexSnocLF(u[2..], true);
      } else if q && u[0] == '"' {
        LexSnocLF(u[1..], false);
      } else if q {
        LexSnocLF(u[1..], true);
      } else {
        LexSnocLF(u[1..], u[0] == '"');
      }
    }
  }

  lemma RowsOfEmptyLine(lines: seq<seq<Tok>>)
    ensures RowsOf(lines + [[]]) == RowsOf(lines) + [[""]]
  {
    RowsOfSnoc(lines, []);
    assert Split([], Sep) == [[]];
    assert TrimFields([[]]) == [Trim(Chars([]))];
  }

  /** A final line feed outside quotes adds no row. */
  lemma TrailingNewline(t: string)
    requires !QuotedAfter(NormalizeNewlines(t), false)
    ensures Parse(t + "\n") == Parse(t)
  {
    NormalizeSnocLF(t);
    if !(t != [] && t[|t| - 1] == '\r') {
      var u := NormalizeNewlines(t);
      var lines := Split(Lex(u, false), Eol);
      assert Split(Lex(NormalizeNewlines(t + "\n"), false), Eol) == lines + [[]] by {
        LexSnocLF(u, false);
        SplitSnocSepar(Lex(u, false), Eol);
      }
      RowsOfEmptyLine(lines);
      assert IsBlank([""]);
      DropBlankSnoc(RowsOf(lines), [""]);
    }
  }

  // ---------------------------------------------------------------------
  // Field count

  /** A line has exactly one field more than it has unquoted commas: rows
      are neither padded nor truncated. */
  lemma FieldCount(line: seq<Tok>)
    ensures |FieldsOf(line)| == Count(line, Sep) + 1
  {
    SplitParts(line, Sep);
  }
}
