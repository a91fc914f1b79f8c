/**
  The parsed HTML that the scrapers consume. A page is the sequence of its
  table rows in document order, a row is the sequence of its cells, and a cell
  carries its text together with the `href` of each anchor and the `value` of
  each input element inside it (None where the attribute is absent).
*/
module Html {
  import opened Wrappers

  datatype Cell = Cell(text: string, hrefs: seq<Option<string>>, values: seq<Option<string>>)

  type Row = seq<Cell>

  type Document = seq<Row>

  /** The characters for which Python's `str.isspace` holds. */
  const Whitespace: string :=
    "\t\n\U{b}\U{c}\r\U{1c}\U{1d}\U{1e}\U{1f} \U{85}\U{a0}\U{1680}"
    + "\U{2000}\U{2001}\U{2002}\U{2003}\U{2004}\U{2005}\U{2006}\U{2007}\U{2008}\U{2009}\U{200a}"
    + "\U{2028}\U{2029}\U{202f}\U{205f}\U{3000}"

  /** `c` occurs in Whitespace at position `i` or later. */
  predicate SpaceFrom(c: char, i: nat)
    decreases |Whitespace| - i
  {
    i < |Whitespace| && (Whitespace[i] == c || SpaceFrom(c, i + 1))
  }

  predicate IsSpace(c: char)
  {
    SpaceFrom(c, 0)
  }

  lemma {:induction false} SpaceFromSpec(c: char, i: nat)
    requires i <= |Whitespace|
    ensures SpaceFrom(c, i) <==> c in Whitespace[i..]
    decreases |Whitespace| - i
  {
    if i < |Whitespace| {
      SpaceFromSpec(c, i + 1);
      assert Whitespace[i..] == [Whitespace[i]] + Whitespace[i + 1..];
    }
  }

  /** IsSpace is membership in Whitespace. */
  lemma IsSpaceSpec(c: char)
    ensures IsSpace(c) <==> c in Whitespace
  {
    SpaceFromSpec(c, 0);
  }

  ghost predicate AllSpace(s: string)
  {
    forall i | 0 <= i < |s| :: IsSpace(s[i])
  }

  /** Python's `str.strip()` with no argument: drops leading, then trailing, whitespace. */
  function Strip(s: string): string
  {
    if |s| > 0 && IsSpace(s[0]) then Strip(s[1..])
    else if |s| > 0 && IsSpace(s[|s| - 1]) then Strip(s[..|s| - 1])
    else s
  }

  /**
    `r` is `s` with its leading and trailing whitespace removed: `s` is `r`
    between a whitespace-only prefix and a whitespace-only suffix, and `r`
    begins and ends with a non-whitespace character.
  */
  ghost predicate IsStripped(s: string, r: string)
  {
    && (exists pre, post :: s == pre + r + post && AllSpace(pre) && AllSpace(post))
    && (r == [] || (!IsSpace(r[0]) && !IsSpace(r[|r| - 1])))
  }

  lemma AllSpaceConcat(a: string, b: string)
    requires AllSpace(a) && AllSpace(b)
    ensures AllSpace(a + b)
  {
    forall k | 0 <= k < |a + b|
      ensures IsSpace((a + b)[k])
    {
      if k >= |a| {
        assert (a + b)[k] == b[k - |a|];
      }
    }
  }

  lemma StripLeadingStep(s: string, r: string)
    requires |s| > 0 && IsSpace(s[0]) && IsStripped(s[1..], r)
    ensures IsStripped(s, r)
  {
    var pre, post :| s[1..] == pre + r + post && AllSpace(pre) && AllSpace(post);
    AllSpaceConcat([s[0]], pre);
    assert s == ([s[0]] + pre) + r + post;
  }

  lemma StripTrailingStep(s: string, r: string)
    requires |s| > 0 && IsSpace(s[|s| - 1]) && IsStripped(s[..|s| - 1], r)
    ensures IsStripped(s, r)
  {
    var pre, post :| s[..|s| - 1] == pre + r + post && AllSpace(pre) && AllSpace(post);
    AllSpaceConcat(post, [s[|s| - 1]]);
    assert s == pre + r + (post + [s[|s| - 1]]);
  }

  /** Strip removes every leading and trailing whitespace character and nothing else. */
  lemma {:induction false} StripSpec(s: string)
    ensures IsStripped(s, Strip(s))
  {
    if |s| > 0 && IsSpace(s[0]) {
      StripSpec(s[1..]);
      StripLeadingStep(s, Strip(s));
    } else if |s| > 0 && IsSpace(s[|s| - 1]) {
      StripSpec(s[..|s| - 1]);
      StripTrailingStep(s, Strip(s));
    } else {
      var none: string := [];
      assert s == none + s + none && AllSpace(none);
    }
  }

  /** Text with no whitespace at either end is left unchanged by Strip. */
  lemma StripOfTrimmed(s: string)
    requires s == [] || (!IsSpace(s[0]) && !IsSpace(s[|s| - 1]))
    ensures Strip(s) == s
  {
  }

  /** Whitespace padding around trimmed text is exactly what Strip removes. */
  lemma {:induction false} StripPadded(left: string, core: string, right: string)
    requires AllSpace(left) && AllSpace(right)
    requires |core| > 0 && !IsSpace(core[0]) && !IsSpace(core[|core| - 1])
    ensures Strip(left + core + right) == core
    decreases |left| + |right|
  {
    var s := left + core + right;
    if |left| > 0 {
      assert s[0] == left[0];
      assert s[1..] == left[1..] + core + right;
      StripPadded(left[1..], core, right);
    } else if |right| > 0 {
      assert s == core + right;
      assert s[0] == core[0] && s[|s| - 1] == right[|right| - 1];
      assert s[..|s| - 1] == left + core + right[..|right| - 1];
      StripPadded(left, core, right[..|right| - 1]);
    } else {
      assert s == core;
      StripOfTrimmed(core);
    }
  }

  /** Stripping twice is the same as stripping once. */
  lemma StripIdempotent(s: string)
    ensures Strip(Strip(s)) == Strip(s)
  {
    StripSpec(s);
    StripOfTrimmed(Strip(s));
  }

  /**
    The rows of `doc` that have exactly `width` cells, in document order: the
    rows that survive `if len(tds) != width: continue`.
  */
  function RowsOfWidth(doc: Document, width: nat): (rows: seq<Row>)
    ensures |rows| <= |doc|
    ensures forall k | 0 <= k < |rows| :: |rows[k]| == width
  {
    if doc == [] then []
    else
      var last := doc[|doc| - 1];
      RowsOfWidth(doc[..|doc| - 1], width) + (if |last| == width then [last] else [])
  }

  /** Filtering a concatenation filters each part (nothing is reordered). */
  lemma {:induction false} RowsOfWidthAppend(a: Document, b: Document, width: nat)
    ensures RowsOfWidth(a + b, width) == RowsOfWidth(a, width) + RowsOfWidth(b, width)
    decreases |b|
  {
    if b == [] {
      assert a + b == a;
    } else {
      var b' := b[..|b| - 1];
      assert (a + b)[..|a + b| - 1] == a + b';
      RowsOfWidthAppend(a, b', width);
    }
  }

  /** A single row survives the filter exactly when it has the right width. */
  lemma RowsOfWidthSingle(r: Row, width: nat)
    ensures RowsOfWidth([r], width) == if |r| == width then [r] else []
  {
    assert [r][..0] == [];
  }

  /** The rows found in a prefix of a page come first among the rows of the page. */
  lemma RowsOfWidthPrefix(doc: Document, i: nat, width: nat)
    requires i <= |doc|
    ensures var p := RowsOfWidth(doc[..i], width);
      |p| <= |RowsOfWidth(doc, width)| && p == RowsOfWidth(doc, width)[..|p|]
  {
    assert doc == doc[..i] + doc[i..];
    RowsOfWidthAppend(doc[..i], doc[i..], width);
  }

  /** Stepping a scan forward by one row extends the filtered rows by that row or not at all. */
  lemma RowsOfWidthStep(doc: Document, i: nat, width: nat)
    requires i < |doc|
    ensures RowsOfWidth(doc[..i + 1], width)
         == RowsOfWidth(doc[..i], width) + (if |doc[i]| == width then [doc[i]] else [])
  {
    assert doc[..i + 1][..i] == doc[..i];
  }
}
