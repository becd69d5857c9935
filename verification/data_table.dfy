/**
 The data table's search box: the typed text is trimmed and lower-cased before
 it becomes the table's filter, and an attached paginator goes back to its
 first page.
 */
module DataTable {
  import opened Wrappers

  /** The characters `String.prototype.trim` removes: white space and line terminators. */
  predicate IsWhitespace(c: char)
  {
    || c == '\t' || c == '\n' || c == '\U{000B}' || c == '\U{000C}' || c == '\r' || c == ' '
    || c == '\U{00A0}' || c == '\U{1680}'
    || ('\U{2000}' <= c <= '\U{200A}')
    || c == '\U{2028}' || c == '\U{2029}' || c == '\U{202F}' || c == '\U{205F}'
    || c == '\U{3000}' || c == '\U{FEFF}'
  }

  predicate IsUpper(c: char)
  {
    'A' <= c <= 'Z'
  }

  /** `toLowerCase` on one character, for the Latin capitals. */
  function LowerChar(c: char): (d: char)
    ensures !IsUpper(d)
    ensures !IsUpper(c) ==> d == c
    ensures IsUpper(c) ==> 'a' <= d <= 'z' && d as int - c as int == 'a' as int - 'A' as int
    ensures IsWhitespace(d) == IsWhitespace(c)
  {
    if IsUpper(c) then (c as int - 'A' as int + 'a' as int) as char else c
  }

  function ToLower(s: string): (r: string)
    ensures |r| == |s|
    ensures NoUpper(r)
    ensures forall i :: 0 <= i < |s| && !IsUpper(s[i]) ==> r[i] == s[i]
    ensures forall i :: 0 <= i < |s| && IsUpper(s[i]) ==> r[i] as int == s[i] as int + ('a' as int - 'A' as int)
    ensures forall i :: 0 <= i < |s| ==> IsWhitespace(r[i]) == IsWhitespace(s[i])
  {
    seq(|s|, i requires 0 <= i < |s| => LowerChar(s[i]))
  }

  /** No white space at either end. */
  predicate Unpadded(s: string)
  {
    |s| == 0 || (!IsWhitespace(s[0]) && !IsWhitespace(s[|s| - 1]))
  }

  predicate AllWhitespace(s: string)
  {
    forall i :: 0 <= i < |s| ==> IsWhitespace(s[i])
  }

  predicate NoUpper(s: string)
  {
    forall i :: 0 <= i < |s| ==> !IsUpper(s[i])
  }

  /** Drops the leading white space: what is left is a suffix that starts with something else, or nothing. */
  function TrimStart(s: string): (r: string)
    ensures |r| <= |s| && r == s[|s| - |r|..]
    ensures AllWhitespace(s[..|s| - |r|])
    ensures |r| > 0 ==> !IsWhitespace(r[0])
    decreases |s|
  {
    if |s| > 0 && IsWhitespace(s[0]) then
      var rest := TrimStart(s[1..]);
      assert s[..|s| - |rest|] == [s[0]] + s[1..][..|s[1..]| - |rest|];
      rest
    else s
  }

  /** Drops the trailing white space: what is left is a prefix that ends with something else, or nothing. */
  function TrimEnd(s: string): (r: string)
    ensures |r| <= |s| && r == s[..|r|]
    ensures AllWhitespace(s[|r|..])
    ensures |r| > 0 ==> !IsWhitespace(r[|r| - 1])
    decreases |s|
  {
    if |s| > 0 && IsWhitespace(s[|s| - 1]) then
      var rest := TrimEnd(s[..|s| - 1]);
      assert s[|rest|..] == s[..|s| - 1][|rest|..] + [s[|s| - 1]];
      rest
    else s
  }

  /** `trim()`: the middle of `s` between its leading and its trailing white space. */
  function Trim(s: string): (r: string)
    ensures Unpadded(r)
    ensures exists a, b :: 0 <= a <= b <= |s| && r == s[a..b] && AllWhitespace(s[..a]) && AllWhitespace(s[b..])
  {
    var t := TrimStart(s);
    var r := TrimEnd(t);
    TrimIsMiddle(s, t, r);
    r
  }

  /** A prefix `r` of a suffix `t` of `s`, with white space cut at both ends, is a middle slice of `s`. */
  lemma TrimIsMiddle(s: string, t: string, r: string)
    requires |t| <= |s| && t == s[|s| - |t|..] && AllWhitespace(s[..|s| - |t|])
    requires |r| <= |t| && r == t[..|r|] && AllWhitespace(t[|r|..])
    ensures var a := |s| - |t|;
            var b := a + |r|;
            && 0 <= a <= b <= |s| && r == s[a..b] && AllWhitespace(s[..a]) && AllWhitespace(s[b..])
  {
    var a := |s| - |t|;
    var b := a + |r|;
    assert s[b..] == t[|r|..];
  }

  /** The filter string the table receives for the typed text `s`. */
  function Normalize(s: string): (r: string)
    ensures Unpadded(r)
    ensures NoUpper(r)
    ensures |r| <= |s|
  {
    ToLower(Trim(s))
  }

  lemma TrimStartOfUnpadded(s: string)
    requires |s| == 0 || !IsWhitespace(s[0])
    ensures TrimStart(s) == s
  {
  }

  lemma TrimEndOfUnpadded(s: string)
    requires |s| == 0 || !IsWhitespace(s[|s| - 1])
    ensures TrimEnd(s) == s
  {
  }

  lemma ToLowerOfLower(s: string)
    requires NoUpper(s)
    ensures ToLower(s) == s
  {
  }

  /** Normalising a filter string again changes nothing. */
  lemma NormalizeIdempotent(s: string)
    ensures Normalize(Normalize(s)) == Normalize(s)
  {
    var n := Normalize(s);
    TrimStartOfUnpadded(n);
    TrimEndOfUnpadded(n);
    ToLowerOfLower(n);
  }

  /** Leading white space added in front of anything is trimmed away with the rest of the leading run. */
  lemma {:induction false} TrimStartPrefix(pre: string, s: string)
    requires AllWhitespace(pre)
    ensures TrimStart(pre + s) == TrimStart(s)
    decreases |pre|
  {
    if |pre| > 0 {
      assert (pre + s)[1..] == pre[1..] + s;
      TrimStartPrefix(pre[1..], s);
    } else {
      assert pre + s == s;
    }
  }

  /** Trailing white space added after anything is trimmed away with the rest of the trailing run. */
  lemma {:induction false} TrimEndSuffix(s: string, post: string)
    requires AllWhitespace(post)
    ensures TrimEnd(s + post) == TrimEnd(s)
    decreases |post|
  {
    if |post| > 0 {
      var shorter := post[..|post| - 1];
      assert (s + post)[..|s + post| - 1] == s + shorter;
      TrimEndSuffix(s, shorter);
    } else {
      assert s + post == s;
    }
  }

  /** Trimming the front of a concatenation: the front of `s` decides, unless it is all white space. */
  lemma {:induction false} TrimStartAppend(s: string, post: string)
    ensures TrimStart(s + post) == if |TrimStart(s)| == 0 then TrimStart(post) else TrimStart(s) + post
    decreases |s|
  {
    if |s| == 0 {
      assert s + post == post;
    } else if IsWhitespace(s[0]) {
      assert (s + post)[1..] == s[1..] + post;
      TrimStartAppend(s[1..], post);
    }
  }

  /** Surrounding white space never reaches the trimmed text. */
  lemma TrimIgnoresPadding(pre: string, s: string, post: string)
    requires AllWhitespace(pre) && AllWhitespace(post)
    ensures Trim(pre + s + post) == Trim(s)
  {
    assert pre + s + post == pre + (s + post);
    TrimStartPrefix(pre, s + post);
    TrimStartAppend(s, post);
    if |TrimStart(s)| == 0 {
      assert TrimStart(post) == [] by {
        TrimStartPrefix(post, []);
        assert post + [] == post;
      }
    } else {
      TrimEndSuffix(TrimStart(s), post);
    }
  }

  /** Texts that differ only by white space around them give the same filter. */
  lemma NormalizeIgnoresPadding(pre: string, s: string, post: string)
    requires AllWhitespace(pre) && AllWhitespace(post)
    ensures Normalize(pre + s + post) == Normalize(s)
  {
    TrimIgnoresPadding(pre, s, post);
  }

  lemma {:induction false} TrimStartCommutesWithLower(s: string)
    ensures TrimStart(ToLower(s)) == ToLower(TrimStart(s))
    decreases |s|
  {
    if |s| > 0 {
      assert ToLower(s)[1..] == ToLower(s[1..]);
      TrimStartCommutesWithLower(s[1..]);
    }
  }

  lemma {:induction false} TrimEndCommutesWithLower(s: string)
    ensures TrimEnd(ToLower(s)) == ToLower(TrimEnd(s))
    decreases |s|
  {
    if |s| > 0 {
      assert ToLower(s)[..|s| - 1] == ToLower(s[..|s| - 1]);
      TrimEndCommutesWithLower(s[..|s| - 1]);
    }
  }

  /** Lower-casing first and trimming second gives the same filter, since case never turns a character into white space. */
  lemma TrimCommutesWithLower(s: string)
    ensures Trim(ToLower(s)) == Normalize(s)
  {
    TrimStartCommutesWithLower(s);
    TrimEndCommutesWithLower(TrimStart(s));
  }

  /** Texts that differ only in the case of their letters give the same filter. */
  lemma NormalizeIgnoresCase(s: string, t: string)
    requires |s| == |t|
    requires forall i :: 0 <= i < |s| ==> LowerChar(s[i]) == LowerChar(t[i])
    ensures Normalize(s) == Normalize(t)
  {
    assert ToLower(s) == ToLower(t);
    TrimCommutesWithLower(s);
    TrimCommutesWithLower(t);
  }

  /** The table's paging state; only the page index matters to `firstPage`. */
  datatype Paginator = Paginator(pageIndex: nat, pageSize: nat, length: nat)

  /** The table's data source: its rows, the current filter string and the paginator, if one is attached. */
  datatype DataSource<Row> = DataSource(rows: seq<Row>, filter: string, paginator: Option<Paginator>)

  /** `firstPage()`: back to page zero, the page size and the row count as they were. */
  function FirstPage(p: Paginator): (q: Paginator)
    ensures q.pageIndex == 0
    ensures q.pageSize == p.pageSize && q.length == p.length
  {
    p.(pageIndex := 0)
  }

  /**
   The outcome of typing into the search box: the updated data source, or a
   `TypeError` when the data has not arrived yet and there is no data source
   to write the filter to.
   */
  datatype FilterOutcome<Row> = Applied(source: DataSource<Row>) | Throws

  function ApplyFilter<Row>(source: Option<DataSource<Row>>, value: string): (r: FilterOutcome<Row>)
    ensures r.Throws? <==> source.None?
    ensures r.Applied? ==>
              && Unpadded(r.source.filter)
              && NoUpper(r.source.filter)
              && r.source.filter == Normalize(value)
              && r.source.rows == source.value.rows
              && (r.source.paginator.Some? <==> source.value.paginator.Some?)
              && (r.source.paginator.Some? ==>
                    && r.source.paginator.value.pageIndex == 0
                    && r.source.paginator.value.pageSize == source.value.paginator.value.pageSize
                    && r.source.paginator.value.length == source.value.paginator.value.length)
  {
    match source
    case None => Throws
    case Some(ds) =>
      var paginator := if ds.paginator.Some? then Some(FirstPage(ds.paginator.value)) else None;
      Applied(ds.(filter := Normalize(value), paginator := paginator))
  }

  /**
   Typing the filter string itself back into the box leaves the table as it
   was, and the earlier filter string never matters.
   */
  lemma ReapplyFilter<Row>(source: DataSource<Row>, value: string)
    ensures var once := ApplyFilter(Some(source), value);
            ApplyFilter(Some(once.source), Normalize(value)) == once
  {
    NormalizeIdempotent(value);
  }

  /** Two texts that differ only in case and surrounding white space leave the table in the same state. */
  lemma SameFilterForEquivalentText<Row>(source: Option<DataSource<Row>>, pre: string, s: string, t: string, post: string)
    requires AllWhitespace(pre) && AllWhitespace(post)
    requires |s| == |t|
    requires forall i :: 0 <= i < |s| ==> LowerChar(s[i]) == LowerChar(t[i])
    ensures ApplyFilter(source, pre + s + post) == ApplyFilter(source, t)
  {
    NormalizeIgnoresPadding(pre, s, post);
    NormalizeIgnoresCase(s, t);
  }
}
