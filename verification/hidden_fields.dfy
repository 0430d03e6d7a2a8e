/** The hidden-field scanner of `TeslaAuth.authorize`: it walks the login
    page for `<input type="hidden" ` markers and reads the text between
    each marker and the next `/>` as `name="N" value="V"`. */
module HiddenFields {
  import opened Wrappers
  import opened Strings

  const Marker: string := "<input type=\"hidden\" "
  const Close: string := "/>"

  /** The form parameters found so far, by name. */
  type Fields = map<string, string>

  /** The attribute text between a marker and its `/>`, split on spaces:
      the name is the first piece without `name="` and the closing quote,
      the value the second without `value="` and the closing quote. */
  function Attributes(field: string): (r: Result<(string, string)>)
    ensures r.Err? ==> r.failure == IndexOutOfBounds
    ensures r.Ok? ==> |r.value.0| + |r.value.1| + 16 <= |field|
  {
    var fields := DropTrailingEmpty(SplitOn(field, ' '));
    if |fields| < 1 || |fields[0]| < 7 then Err(IndexOutOfBounds)
    else if |fields| < 2 || |fields[1]| < 8 then Err(IndexOutOfBounds)
    else
      JoinPrefixLength(fields, SplitOn(field, ' '), field);
      Ok((fields[0][6 .. |fields[0]| - 1], fields[1][7 .. |fields[1]| - 1]))
  }

  /** The two leading pieces of a split, with the space between them, fit
      in the split text. */
  lemma JoinPrefixLength(fields: seq<string>, pieces: seq<string>, field: string)
    requires 2 <= |fields| <= |pieces| && fields == pieces[..|fields|] && Join(" ", pieces) == field
    ensures |fields[0]| + |fields[1]| + 1 <= |field|
  {
    assert pieces[0] == fields[0] && pieces[1] == fields[1];
    assert Join(" ", pieces) == pieces[0] + " " + Join(" ", pieces[1..]);
    if |pieces| > 2 {
      assert Join(" ", pieces[1..]) == pieces[1] + " " + Join(" ", pieces[2..]);
    }
  }

  /** The hidden input whose marker starts at `idx`: `Ok(None)` when no
      `/>` follows it. The substring and array accesses of the source fail
      with `IndexOutOfBounds` when the text is too short. */
  function ParseField(page: string, idx: nat): (r: Result<Option<(string, string)>>)
    ensures r.Err? ==> r.failure == IndexOutOfBounds
    ensures r.Ok? && r.value.None? <==> IndexOf(page, Close, idx + 6) < 0
    ensures r.Ok? && r.value.Some? ==>
              idx + 21 + |r.value.value.0| + |r.value.value.1| + 16 <= IndexOf(page, Close, idx + 6) - 1
  {
    var idx2 := IndexOf(page, Close, idx + 6);
    if idx2 <= idx then Ok(None)
    else if idx + 21 > idx2 - 1 then Err(IndexOutOfBounds)
    else
      match Attributes(page[idx + 21 .. idx2 - 1])
      case Err(e) => Err(e)
      case Ok(kv) => Ok(Some(kv))
  }

  /** The loop of `authorize` from index `from`, with the fields found so
      far in `acc`. */
  function ScanFrom(page: string, from: nat, acc: Fields): (r: Result<Fields>)
    ensures r.Err? ==> r.failure == IndexOutOfBounds
    ensures r.Ok? ==> acc.Keys <= r.value.Keys
    ensures IndexOf(page, Marker, from) < 0 ==> r == Ok(acc)
    decreases |page| - from
  {
    var idx := IndexOf(page, Marker, from);
    if idx < 0 then Ok(acc)
    else
      match ParseField(page, idx)
      case Err(e) => Err(e)
      case Ok(None) => ScanFrom(page, idx + 1, acc)
      case Ok(Some(kv)) => ScanFrom(page, idx + 1, acc[kv.0 := kv.1])
  }

  /** `authorize`'s scan of the page: the index moves strictly forward on
      every round, so the loop ends. */
  method ScanHiddenFields(page: string) returns (r: Result<Fields>)
    ensures r == ScanFrom(page, 0, map[])
  {
    var res: Fields := map[];
    var idx := 0;
    while true
      invariant 0 <= idx
      invariant ScanFrom(page, idx, res) == ScanFrom(page, 0, map[])
      decreases |page| - idx
    {
      var next := IndexOf(page, Marker, idx);
      if next < 0 {
        return Ok(res);
      }
      var f := ParseField(page, next);
      match f {
        case Err(e) =>
          return Err(e);
        case Ok(None) =>
        case Ok(Some(kv)) =>
          res := res[kv.0 := kv.1];
      }
      idx := next + 1;
    }
  }

  // ---------------------------------------------------------------------
  // Round trip
  // ---------------------------------------------------------------------

  /** One hidden input of a login page. */
  datatype Hidden = Hidden(name: string, value: string)

  /** A name or value the scanner can read back: no space (the attribute
      separator), no '/' (the start of the closing `/>`) and no '<' (the
      start of a marker). */
  predicate Plain(s: string)
  {
    ' ' !in s && '/' !in s && '<' !in s
  }

  predicate PlainHidden(h: Hidden)
  {
    Plain(h.name) && Plain(h.value)
  }

  function NameAttr(h: Hidden): string
  {
    "name=\"" + h.name + "\""
  }

  function ValueAttr(h: Hidden): string
  {
    "value=\"" + h.value + "\""
  }

  /** The attribute text of an input: `name="N" value="V"`. */
  function Field(h: Hidden): string
  {
    NameAttr(h) + " " + ValueAttr(h)
  }

  /** `<input type="hidden" name="N" value="V" />` */
  function Element(h: Hidden): string
  {
    Marker + Field(h) + " " + Close
  }

  /** No marker starts at any index of `page` in `[lo, hi)`. */
  predicate NoMarkerBetween(page: string, lo: int, hi: int)
  {
    forall k :: lo <= k < hi ==> !OccursAt(page, Marker, k)
  }

  /** Text in which no marker starts: the markup around the inputs. */
  predicate MarkerFree(s: string)
  {
    NoMarkerBetween(s, 0, |s|)
  }

  /** One hidden input of a page and the markup just before it. */
  datatype Piece = Piece(markup: string, input: Hidden)

  /** A page: each input preceded by its markup, then the closing markup
      `tail`. */
  function Render(items: seq<Piece>, tail: string): string
  {
    if |items| == 0 then tail else items[0].markup + Element(items[0].input) + Render(items[1..], tail)
  }

  /** The inputs of a page can be read back when their names and values are
      plain and the markup holds no marker. */
  predicate Readable(items: seq<Piece>, tail: string)
  {
    && MarkerFree(tail)
    && forall i :: 0 <= i < |items| ==> PlainHidden(items[i].input) && MarkerFree(items[i].markup)
  }

  /** The map the inputs describe: a later input overwrites an earlier one
      with the same name. */
  function Collect(acc: Fields, items: seq<Piece>): Fields
    decreases |items|
  {
    if |items| == 0 then acc
    else Collect(acc[items[0].input.name := items[0].input.value], items[1..])
  }

  /** The first occurrence at or after `from` is the one at `q`. */
  lemma IndexOfIs(s: string, pat: string, from: nat, q: nat)
    requires |pat| > 0 && from <= q && OccursAt(s, pat, q)
    requires forall k :: from <= k < q ==> !OccursAt(s, pat, k)
    ensures IndexOf(s, pat, from) == q
  {
  }

  /** The first `c` of `s` is at `k`. */
  lemma FirstIndexOfCharIs(s: string, c: char, k: nat)
    requires k <= |s| && c !in s[..k] && (k < |s| ==> s[k] == c)
    ensures FirstIndexOfChar(s, c) == k
  {
    var j := FirstIndexOfChar(s, c);
    forall i | 0 <= i < k
      ensures s[i] != c
    {
      assert s[..k][i] == s[i];
    }
    forall i | 0 <= i < j
      ensures s[i] != c
    {
      assert s[..j][i] == s[i];
    }
  }

  /** Splitting text without the delimiter gives the text itself. */
  lemma SplitNone(s: string, d: char)
    requires d !in s
    ensures SplitOn(s, d) == [s]
  {
    assert s[..|s|] == s;
    FirstIndexOfCharIs(s, d, |s|);
  }

  /** Splitting `a b` on the space gives `a` and `b` when neither has one. */
  lemma SplitPair(a: string, b: string)
    requires ' ' !in a && ' ' !in b
    ensures SplitOn(a + " " + b, ' ') == [a, b]
  {
    var s := a + " " + b;
    assert s[..|a|] == a && s[|a|] == ' ';
    FirstIndexOfCharIs(s, ' ', |a|);
    assert s[|a| + 1..] == b;
    SplitNone(b, ' ');
  }

  /** The attributes of a rendered element read back as its name and value. */
  lemma AttributesOfElement(h: Hidden)
    requires PlainHidden(h)
    ensures Attributes(Field(h)) == Ok((h.name, h.value))
  {
    var a, b := NameAttr(h), ValueAttr(h);
    assert ' ' !in a && ' ' !in b;
    SplitPair(a, b);
    assert [a, b][..2] == [a, b];
    assert DropTrailingEmpty([a, b]) == [a, b];
    assert a[6 .. |a| - 1] == h.name;
    assert b[7 .. |b| - 1] == h.value;
  }

  /** What the scanner needs of the two delimiters. */
  lemma DelimiterFacts()
    ensures |Marker| == 21 && Marker[0] == '<' && '/' !in Marker && '<' !in Marker[1..]
    ensures |Close| == 2 && Close[0] == '/'
  {
    MarkerNoSlash();
    MarkerTail();
  }

  lemma MarkerNoSlash()
    ensures '/' !in Marker
  {
  }

  lemma MarkerTail()
    ensures |Marker| == 21 && Marker[0] == '<' && '<' !in Marker[1..]
  {
    assert Marker == "<" + "input type=\"hidden\" ";
  }

  /** The attribute text of a plain input holds no delimiter character. */
  lemma FieldFacts(h: Hidden)
    requires PlainHidden(h)
    ensures |Field(h)| == 16 + |h.name| + |h.value|
    ensures '/' !in Field(h) && '<' !in Field(h)
  {
  }

  /** Where the parts of an element sit in a page that contains it. */
  lemma Layout(a: string, m: string, f: string, s: string, c: string, r: string)
    requires |m| > 0
    ensures var page := a + (m + f + s + c) + r;
            var i, j, k := |a| + |m|, |a| + |m| + |f|, |a| + |m| + |f| + |s|;
            && |page| == |a| + |m| + |f| + |s| + |c| + |r|
            && page[|a|..i] == m && page[i..j] == f && page[k..k + |c|] == c
            && page[|a|..k] == m + f + s
            && page[|a| + 1..k] == m[1..] + f + s
            && page[..k + |c|] == a + (m + f + s + c)
  {
    var page := a + (m + f + s + c) + r;
    assert page == a + m + f + s + c + r;
  }

  /** No `/>` starts where the page has no '/'. */
  lemma NoCloseIn(page: string, lo: nat, from: nat, to: nat)
    requires lo <= from && to <= |page| && lo <= to && '/' !in page[lo..to]
    ensures forall k :: from <= k < to ==> !OccursAt(page, Close, k)
  {
    DelimiterFacts();
    forall k | from <= k < to
      ensures !OccursAt(page, Close, k)
    {
      assert page[k] == page[lo..to][k - lo];
    }
  }

  /** No marker starts where the page has no '<'. */
  lemma NoMarkerIn(page: string, lo: nat, to: nat)
    requires lo <= to <= |page| && '<' !in page[lo..to]
    ensures forall k :: lo <= k < to ==> !OccursAt(page, Marker, k)
  {
    DelimiterFacts();
    forall k | lo <= k < to
      ensures !OccursAt(page, Marker, k)
    {
      assert page[k] == page[lo..to][k - lo];
    }
  }

  /** The `/>` that closes a rendered element is the first one after its
      marker. */
  lemma CloseOfElement(pre: string, h: Hidden, rest: string)
    requires PlainHidden(h)
    ensures IndexOf(pre + Element(h) + rest, Close, |pre| + 6) == |pre| + |Element(h)| - 2
  {
    var page := pre + Element(h) + rest;
    DelimiterFacts();
    FieldFacts(h);
    Layout(pre, Marker, Field(h), " ", Close, rest);
    var close := |pre| + 21 + |Field(h)| + 1;
    NoCloseIn(page, |pre|, |pre| + 6, close);
    IndexOfIs(page, Close, |pre| + 6, close);
  }

  /** Parsing the input at the start of a rendered element gives its name
      and value back. */
  lemma ParseElement(pre: string, h: Hidden, rest: string)
    requires PlainHidden(h)
    ensures ParseField(pre + Element(h) + rest, |pre|) == Ok(Some((h.name, h.value)))
  {
    var page := pre + Element(h) + rest;
    var i, j := FieldBounds(pre, h, rest);
    AttributesOfElement(h);
    ParseBetween(page, |pre|, j, Field(h), (h.name, h.value));
  }

  /** A marker at `idx` whose `/>` follows attribute text that reads as
      `kv` parses as `kv`. */
  lemma ParseAt(page: string, idx: nat, field: string, kv: (string, string))
    requires idx + 22 <= IndexOf(page, Close, idx + 6) <= |page| + 1
    requires page[idx + 21 .. IndexOf(page, Close, idx + 6) - 1] == field && Attributes(field) == Ok(kv)
    ensures ParseField(page, idx) == Ok(Some(kv))
  {
  }

  /** The same, with the end of the attribute text given by its index. */
  lemma ParseBetween(page: string, idx: nat, j: nat, field: string, kv: (string, string))
    requires idx + 21 <= j <= |page| && IndexOf(page, Close, idx + 6) == j + 1
    requires page[idx + 21 .. j] == field && Attributes(field) == Ok(kv)
    ensures ParseField(page, idx) == Ok(Some(kv))
  {
    ParseAt(page, idx, field, kv);
  }

  /** Where the attribute text of a rendered element lies: from just after
      its marker to just before the space that precedes its `/>`. */
  lemma FieldBounds(pre: string, h: Hidden, rest: string) returns (i: nat, j: nat)
    requires PlainHidden(h)
    ensures var page := pre + Element(h) + rest;
            && i == |pre| + 21 && i <= j
            && IndexOf(page, Close, |pre| + 6) == j + 1
            && page[i..j] == Field(h)
  {
    var page := pre + Element(h) + rest;
    DelimiterFacts();
    FieldFacts(h);
    Layout(pre, Marker, Field(h), " ", Close, rest);
    CloseOfElement(pre, h, rest);
    i := |pre| + 21;
    j := i + |Field(h)|;
  }

  /** No marker starts inside a rendered element after its first character. */
  lemma NoMarkerInside(pre: string, h: Hidden, rest: string)
    requires PlainHidden(h)
    ensures NoMarkerBetween(pre + Element(h) + rest, |pre| + 1, |pre + Element(h)|)
  {
    var page := pre + Element(h) + rest;
    DelimiterFacts();
    FieldFacts(h);
    Layout(pre, Marker, Field(h), " ", Close, rest);
    var k := |pre| + 21 + |Field(h)| + 1;
    NoMarkerIn(page, |pre| + 1, k);
    assert page[k] == '/' && page[k + 1] == '>';
  }

  /** A rendered element starts with its marker. */
  lemma ElementMarker(pre: string, h: Hidden, rest: string)
    ensures OccursAt(pre + Element(h) + rest, Marker, |pre|)
  {
    DelimiterFacts();
    Layout(pre, Marker, Field(h), " ", Close, rest);
  }

  /** A rendered element starts with '<'. */
  lemma ElementStart(h: Hidden)
    ensures |Element(h)| > 0 && Element(h)[0] == '<'
  {
    DelimiterFacts();
  }

  /** Two adjacent marker-free stretches of a page make one. */
  lemma JoinNoMarker(page: string, lo: int, mid: int, hi: int)
    requires lo <= mid <= hi && NoMarkerBetween(page, lo, mid) && NoMarkerBetween(page, mid, hi)
    ensures NoMarkerBetween(page, lo, hi)
  {
  }

  /** One round of the scan: from `from` it finds the marker at `q`, the
      first one, records the field parsed there and resumes after it. */
  lemma ScanAdvance(page: string, from: nat, q: nat, name: string, value: string, acc: Fields)
    requires from <= q && NoMarkerBetween(page, from, q) && OccursAt(page, Marker, q)
    requires ParseField(page, q) == Ok(Some((name, value)))
    ensures ScanFrom(page, from, acc) == ScanFrom(page, q + 1, acc[name := value])
  {
    DelimiterFacts();
    IndexOfIs(page, Marker, from, q);
  }

  /** The scan ends, keeping what it has, when no marker follows `from`. */
  lemma ScanEnd(page: string, from: nat, q: nat, acc: Fields)
    requires from <= q && NoMarkerBetween(page, from, q) && NoMarkerBetween(page, q, |page|)
    ensures ScanFrom(page, from, acc) == Ok(acc)
  {
    DelimiterFacts();
    assert IndexOf(page, Marker, from) < 0;
  }

  /** No marker starts in marker-free markup that is followed by an
      element: one that ran past the markup would put the element's '<'
      inside the marker's tail. */
  lemma MarkupNoMarker(pre: string, m: string, e: string, rest: string)
    requires MarkerFree(m) && |e| > 0 && e[0] == '<'
    ensures NoMarkerBetween(pre + m + e + rest, |pre|, |pre + m|)
  {
    var page := pre + m + e + rest;
    var end := |pre| + |m|;
    DelimiterFacts();
    assert page[end] == '<';
    forall k | |pre| <= k < end
      ensures !OccursAt(page, Marker, k)
    {
      var j := k - |pre|;
      if k + 21 <= end {
        assert page[k..k + 21] == m[j..j + 21];
        assert !OccursAt(m, Marker, j);
      } else if k + 21 <= |page| {
        var d := end - k;
        assert Marker[1..][d - 1] == Marker[d];
        assert page[k..k + 21][d] == '<' != Marker[d];
      }
    }
  }

  /** No marker starts in marker-free text that ends the page. */
  lemma TailNoMarker(pre: string, tail: string)
    requires MarkerFree(tail)
    ensures NoMarkerBetween(pre + tail, |pre|, |pre + tail|)
  {
    var page := pre + tail;
    DelimiterFacts();
    forall k | |pre| <= k < |page|
      ensures !OccursAt(page, Marker, k)
    {
      var j := k - |pre|;
      if k + 21 <= |page| {
        assert page[k..k + 21] == tail[j..j + 21];
        assert !OccursAt(tail, Marker, j);
      }
    }
  }

  /** Scanning a page from `from`, where the text from `pos` on is the
      rendering of `items` and `tail`, collects those inputs. */
  lemma {:induction false} ScanRendered(page: string, pos: nat, items: seq<Piece>, tail: string, from: nat, acc: Fields)
    requires from <= pos <= |page| && page[pos..] == Render(items, tail) && Readable(items, tail)
    requires NoMarkerBetween(page, from, pos)
    ensures ScanFrom(page, from, acc) == Ok(Collect(acc, items))
    decreases |items|
  {
    if |items| == 0 {
      TailAt(page, pos, tail);
      ScanEnd(page, from, pos, acc);
    } else {
      var h := items[0].input;
      var q := pos + |items[0].markup|;
      var next := q + |Element(h)|;
      PieceAt(page, pos, q, next, items, tail);
      JoinNoMarker(page, from, pos, q);
      ScanAdvance(page, from, q, h.name, h.value, acc);
      ReadableRest(items, tail);
      ScanRendered(page, next, items[1..], tail, q + 1, acc[h.name := h.value]);
    }
  }

  /** Where the first piece of the text from `pos` on lies: marker-free
      markup up to `q`, then an element whose marker starts at `q`, whose
      field parses as its input and in whose remainder no marker starts;
      the remaining pieces follow from `next` on. */
  lemma PieceAt(page: string, pos: nat, q: nat, next: nat, items: seq<Piece>, tail: string)
    requires pos <= |page| && page[pos..] == Render(items, tail)
    requires |items| > 0 && Readable(items, tail)
    requires q == pos + |items[0].markup| && next == q + |Element(items[0].input)|
    ensures q < next <= |page|
    ensures NoMarkerBetween(page, pos, q)
    ensures OccursAt(page, Marker, q)
    ensures ParseField(page, q) == Ok(Some((items[0].input.name, items[0].input.value)))
    ensures NoMarkerBetween(page, q + 1, next)
    ensures page[next..] == Render(items[1..], tail)
  {
    var m, h := items[0].markup, items[0].input;
    var rest := Render(items[1..], tail);
    ReadableRest(items, tail);
    SplitPage(page, pos, next, m, Element(h), rest);
    var pre := page[..pos];
    ElementStart(h);
    MarkupAt(page, pre, m, Element(h), rest, pos, q);
    ElementAt(page, pre + m, h, rest, q, next);
  }

  /** A page whose text from `pos` on is `m + e + rest` is its first `pos`
      characters followed by those three parts. */
  lemma SplitPage(page: string, pos: nat, next: nat, m: string, e: string, rest: string)
    requires pos <= |page| && page[pos..] == m + e + rest && next == pos + |m| + |e|
    ensures page == page[..pos] + m + e + rest
    ensures |page[..pos]| == pos && next <= |page| && page[next..] == rest
  {
    assert page == page[..pos] + page[pos..];
    assert page[..pos] + (m + e + rest) == page[..pos] + m + e + rest;
  }

  /** In a page laid out as `pre + m + e + rest`, no marker starts in the
      marker-free markup `m`. */
  lemma MarkupAt(page: string, pre: string, m: string, e: string, rest: string, pos: nat, q: nat)
    requires page == pre + m + e + rest && MarkerFree(m) && |e| > 0 && e[0] == '<'
    requires pos == |pre| && q == pos + |m|
    ensures NoMarkerBetween(page, pos, q)
  {
    MarkupNoMarker(pre, m, e, rest);
  }

  /** In a page laid out as `pre + Element(h) + rest`, the element's marker
      starts at `q`, its field parses as `h`, and no other marker starts
      before `next`, where the element ends. */
  lemma ElementAt(page: string, pre: string, h: Hidden, rest: string, q: nat, next: nat)
    requires page == pre + Element(h) + rest && PlainHidden(h)
    requires q == |pre| && next == q + |Element(h)|
    ensures OccursAt(page, Marker, q)
    ensures ParseField(page, q) == Ok(Some((h.name, h.value)))
    ensures NoMarkerBetween(page, q + 1, next)
  {
    ElementMarker(pre, h, rest);
    ParseElement(pre, h, rest);
    NoMarkerInside(pre, h, rest);
  }

  /** No marker starts in the marker-free text that ends a page. */
  lemma TailAt(page: string, pos: nat, tail: string)
    requires pos <= |page| && page[pos..] == Render([], tail) && MarkerFree(tail)
    ensures NoMarkerBetween(page, pos, |page|)
  {
    assert page == page[..pos] + tail;
    TailNoMarker(page[..pos], tail);
  }

  /** What makes a page readable holds of its first piece and of the rest. */
  lemma ReadableRest(items: seq<Piece>, tail: string)
    requires |items| > 0 && Readable(items, tail)
    ensures PlainHidden(items[0].input) && MarkerFree(items[0].markup)
    ensures Readable(items[1..], tail)
  {
    forall i | 0 <= i < |items| - 1
      ensures PlainHidden(items[1..][i].input) && MarkerFree(items[1..][i].markup)
    {
      assert items[1..][i] == items[i + 1];
    }
  }

  /** Scanning a page yields exactly the map its hidden inputs describe,
      whatever markup surrounds them. */
  lemma ScanRoundTrip(items: seq<Piece>, tail: string)
    requires Readable(items, tail)
    ensures ScanFrom(Render(items, tail), 0, map[]) == Ok(Collect(map[], items))
  {
    var page := Render(items, tail);
    assert page[0..] == page;
    ScanRendered(page, 0, items, tail, 0, map[]);
  }

  /** Of two inputs with the same name, the later value wins. */
  lemma LaterDuplicateWins(items: seq<Piece>, tail: string)
    requires |items| == 2 && items[0].input.name == items[1].input.name
    requires Readable(items, tail)
    ensures ScanFrom(Render(items, tail), 0, map[]) == Ok(map[items[1].input.name := items[1].input.value])
  {
    ScanRoundTrip(items, tail);
    CollectDuplicate(items);
  }

  /** Collecting two inputs with one name keeps the second value. */
  lemma CollectDuplicate(items: seq<Piece>)
    requires |items| == 2 && items[0].input.name == items[1].input.name
    ensures Collect(map[], items) == map[items[1].input.name := items[1].input.value]
  {
    var h0, h1 := items[0].input, items[1].input;
    var m1 := map[h0.name := h0.value];
    assert Collect(map[], items) == Collect(m1, items[1..]);
    assert Collect(m1, items[1..]) == Collect(m1[h1.name := h1.value], items[2..]);
    assert m1[h1.name := h1.value] == map[h1.name := h1.value];
  }

  /** A marker closed right after itself has no room for attributes: the
      substring of the source fails. */
  lemma EmptyInputFails()
    ensures ScanFrom(Marker + Close, 0, map[]) == Err(IndexOutOfBounds)
  {
    var page := Marker + Close;
    DelimiterFacts();
    assert page[..21] == Marker && page[21..] == Close;
    IndexOfIs(page, Marker, 0, 0);
    NoCloseIn(page, 0, 6, 21);
    IndexOfIs(page, Close, 6, 21);
  }
}
