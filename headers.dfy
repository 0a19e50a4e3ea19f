/** Header-row normalisation and synonym lookup (js/utils/headers.js). */
module Headers {
  import opened Text
  import opened Seqs

  /** The byte-order mark a UTF-8 file may start with. */
  const Bom: char := '\U{FEFF}'

  /** The full-width (ideographic) space. */
  const FullWidthSpace: char := '\U{3000}'

  /** `.replace(/^\ufeff/, '')`: one leading byte-order mark goes. */
  function DropBom(h: string): string
  {
    if h != [] && h[0] == Bom then h[1..] else h
  }

  /** One header cell: BOM dropped, full-width spaces made ASCII spaces,
      trimmed, lower-cased. */
  function NormHeader(h: string): string
  {
    ToLower(Trim(ReplaceChar(DropBom(h), FullWidthSpace, ' ')))
  }

  /** `normHeaders`: the header row, cell by cell. */
  function NormHeaders(r0: seq<string>): (r: seq<string>)
    ensures |r| == |r0|
    ensures forall i :: 0 <= i < |r| ==> r[i] == NormHeader(r0[i])
  {
    seq(|r0|, i requires 0 <= i < |r0| => NormHeader(r0[i]))
  }

  /** A normalised header is trimmed, has no upper-case letter, no
      full-width space and no leading mark, and normalising it again
      changes nothing. */
  lemma NormHeaderSpec(h: string)
    ensures var r := NormHeader(h);
      IsTrimmed(r) && FullWidthSpace !in r && (r == [] || r[0] != Bom)
      && (forall i :: 0 <= i < |r| ==> !IsUpper(r[i]))
      && NormHeader(r) == r
  {
    NormHeaderShape(h);
    var r := NormHeader(h);
    assert DropBom(r) == r;
    ReplaceAbsent(r, FullWidthSpace, ' ');
    TrimTrimmed(r);
    ToLowerNoUpper(r);
  }

  lemma NormHeaderShape(h: string)
    ensures var r := NormHeader(h);
      IsTrimmed(r) && FullWidthSpace !in r && (r == [] || r[0] != Bom)
      && (forall i :: 0 <= i < |r| ==> !IsUpper(r[i]))
  {
    var u := ReplaceChar(DropBom(h), FullWidthSpace, ' ');
    var t := Trim(u);
    var r := ToLower(t);
    ReplaceRemoves(DropBom(h), FullWidthSpace, ' ');
    assert FullWidthSpace !in t;
    ToLowerTrimmed(t);
    ToLowerAbsent(t, FullWidthSpace);
    TrimmedNoBom(r);
  }

  /** A trimmed string does not start with a BOM, which is white space. */
  lemma TrimmedNoBom(r: string)
    requires IsTrimmed(r)
    ensures r == [] || r[0] != Bom
  {
    if r != [] {
      assert IsSpace(Bom);
    }
  }

  /** The synonyms to look for: an array, or one string of `|`-separated
      names. */
  datatype Names = List(keys: seq<string>) | Piped(text: string)

  /** `Array.isArray(names) ? names : names.split('|')`. */
  function Keys(names: Names): seq<string>
  {
    match names
    case List(ks) => ks
    case Piped(t) => Split(t, '|')
  }

  /** `Array.prototype.indexOf`: the first position of `x`, or -1. */
  function IndexOf(s: seq<string>, x: string): (i: int)
    ensures -1 <= i < |s|
    ensures i == -1 <==> x !in s
    ensures i >= 0 ==> s[i] == x && x !in s[..i]
  {
    if s == [] then -1
    else if s[0] == x then 0
    else
      var j := IndexOf(s[1..], x);
      if j < 0 then -1 else j + 1
  }

  /** The column of the first synonym, in list order, that occurs in the
      header at all. */
  function HeaderIndex(keys: seq<string>, header: seq<string>): int
  {
    if keys == [] then -1
    else
      var j := IndexOf(header, ToLower(keys[0]));
      if j >= 0 then j else HeaderIndex(keys[1..], header)
  }

  /** `findHeaderIndex`: tries the synonyms in order and returns at the
      first one the header holds. */
  method FindHeaderIndex(names: Names, header: seq<string>) returns (i: int)
    ensures i == HeaderIndex(Keys(names), header)
  {
    var keys := Keys(names);
    var n := 0;
    while n < |keys|
      invariant 0 <= n <= |keys|
      invariant HeaderIndex(keys[n..], header) == HeaderIndex(keys, header)
    {
      assert keys[n..][1..] == keys[n + 1..];
      var j := IndexOf(header, ToLower(keys[n]));
      if j >= 0 {
        return j;
      }
      n := n + 1;
    }
    return -1;
  }

  /** The result is -1 or a column; it is -1 exactly when no lower-cased
      synonym occurs; otherwise it is the first occurrence of the earliest
      synonym that occurs, so synonym order beats column order. */
  lemma {:induction false} HeaderIndexSpec(keys: seq<string>, header: seq<string>)
    ensures var r := HeaderIndex(keys, header);
      -1 <= r < |header|
      && (r == -1 <==> forall k :: 0 <= k < |keys| ==> ToLower(keys[k]) !in header)
      && (r >= 0 ==> exists k :: (0 <= k < |keys| && header[r] == ToLower(keys[k])
            && ToLower(keys[k]) !in header[..r]
            && forall k' :: 0 <= k' < k ==> ToLower(keys[k']) !in header))
  {
    if keys != [] {
      var j := IndexOf(header, ToLower(keys[0]));
      if j < 0 {
        HeaderIndexSpec(keys[1..], header);
        var r := HeaderIndex(keys, header);
        assert forall k :: 1 <= k < |keys| ==> keys[k] == keys[1..][k - 1];
        if r >= 0 {
          var k :| 0 <= k < |keys[1..]| && header[r] == ToLower(keys[1..][k])
            && ToLower(keys[1..][k]) !in header[..r]
            && forall k' :: 0 <= k' < k ==> ToLower(keys[1..][k']) !in header;
          assert header[r] == ToLower(keys[k + 1]);
        }
      } else {
        assert header[j] == ToLower(keys[0]);
      }
    }
  }

  /** A `|`-separated string behaves exactly like the array of its names. */
  lemma PipedAsList(names: seq<string>, header: seq<string>)
    requires |names| >= 1
    requires forall k :: 0 <= k < |names| ==> '|' !in names[k]
    ensures HeaderIndex(Keys(Piped(Join(names, '|'))), header) == HeaderIndex(Keys(List(names)), header)
  {
    SplitJoin(names, '|');
  }
}
