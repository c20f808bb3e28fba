/**
 The Data Rods proxy handler of src/api/datarods.js: it checks the six
 required query parameters, forwards the request upstream, and parses the
 plain-text time series that comes back into rows of (time, value).

 The upstream call is a parameter (`Upstream`): what it answered, or the
 message of the exception it raised. JavaScript's `Number()` on a non-blank
 string is the abstract parse `num`; on a blank string it is 0.
 */
module DataRods {
  import opened Numbers
  import opened Text

  // ---------------------------------------------------------------------
  // Requests and responses
  // ---------------------------------------------------------------------

  /** The query string as far as the handler reads it; `None` is a missing
      parameter (or a missing `req.query`). */
  datatype Query = Query(
    dataset: Option<string>, variable: Option<string>,
    lat: Option<string>, lon: Option<string>,
    start: Option<string>, end: Option<string>)

  /** A parameter passes `!x`: present and not the empty string. */
  predicate Given(v: Option<string>)
  {
    v.Some? && v.value != ""
  }

  predicate Complete(q: Query)
  {
    Given(q.dataset) && Given(q.variable) && Given(q.lat) && Given(q.lon)
    && Given(q.start) && Given(q.end)
  }

  const MissingParams: string := "Missing required params: dataset, variable, lat, lon, start, end"
  const FailedPrefix: string := "Data Rods request failed ("
  /** How much of an upstream error body is quoted. */
  const ExcerptLength: nat := 240

  /** What the upstream request produced: an HTTP answer, or an exception
      whose rendered message (`e.message || String(e)`) is `message`. */
  datatype Upstream = Answered(ok: bool, status: int, text: string) | Threw(message: string)

  /** One parsed line: its timestamp token and its value, absent when the
      second token is missing or does not parse to a finite number. */
  datatype Row = Row(time: string, value: Option<real>)

  datatype Body =
    | Failure(error: string)
    | Data(dataset: string, variable: string, lat: Raw, lon: Raw, rows: seq<Row>)

  datatype Response = Response(status: int, body: Body)

  /** `Number(s)`: a blank string is 0, anything else is the abstract parse. */
  function ToNumber(num: string -> Raw, s: string): (r: Raw)
    ensures AllSpace(s) ==> r == Num(0.0)
    ensures !AllSpace(s) ==> r == num(s)
  {
    if AllSpace(s) then Num(0.0) else num(s)
  }

  /** `Number.isFinite(v) ? v : null`. */
  function Finite(v: Raw): (r: Option<real>)
    ensures r.Some? <==> v.Num?
    ensures r.Some? ==> v == Num(r.value)
  {
    if v.Num? then Some(v.x) else None
  }

  /** `t.slice(0, 240)`. */
  function Excerpt(t: string): (r: string)
    ensures |r| <= ExcerptLength && |r| <= |t|
    ensures |r| == ExcerptLength || |r| == |t|
    ensures r == t[..|r|]
  {
    if |t| <= ExcerptLength then t else t[..ExcerptLength]
  }

  // ---------------------------------------------------------------------
  // split(/\r?\n/)
  // ---------------------------------------------------------------------

  predicate EndsInCR(s: string)
  {
    |s| > 0 && s[|s| - 1] == '\r'
  }

  /** The CR of a CRLF belongs to the separator, not to the line. */
  function DropCR(s: string): (r: string)
    ensures |r| <= |s| && r == s[..|r|]
    ensures !EndsInCR(s) ==> r == s
  {
    if EndsInCR(s) then s[..|s| - 1] else s
  }

  function CountLF(s: string): nat
  {
    if s == "" then 0 else (if s[0] == '\n' then 1 else 0) + CountLF(s[1..])
  }

  /** `split(/\r?\n/)` continued from a partly read line `cur`: every LF ends
      a line, taking one CR just before it along. */
  function SplitLines(s: string, cur: string): (r: seq<string>)
    ensures |r| >= 1
    decreases |s|
  {
    if s == "" then [cur]
    else if s[0] == '\n' then [DropCR(cur)] + SplitLines(s[1..], "")
    else SplitLines(s[1..], cur + [s[0]])
  }

  lemma SplitLinesAtLF(s: string, cur: string)
    requires s != "" && s[0] == '\n'
    ensures SplitLines(s, cur) == [DropCR(cur)] + SplitLines(s[1..], "")
  {
  }

  lemma SplitLinesAtChar(s: string, cur: string)
    requires s != "" && s[0] != '\n'
    ensures SplitLines(s, cur) == SplitLines(s[1..], cur + [s[0]])
  {
  }

  /** One line per LF plus one, and no line holds an LF. */
  lemma {:induction false} SplitLinesShape(s: string, cur: string)
    requires '\n' !in cur
    ensures var r := SplitLines(s, cur);
      |r| == CountLF(s) + 1 && forall i :: 0 <= i < |r| ==> '\n' !in r[i]
    decreases |s|
  {
    if s == "" {
    } else if s[0] == '\n' {
      SplitLinesAtLF(s, cur);
      SplitLinesShape(s[1..], "");
      var line := DropCR(cur);
      assert forall c :: c in line ==> c in cur;
      var r := [line] + SplitLines(s[1..], "");
      assert forall i :: 0 < i < |r| ==> r[i] == SplitLines(s[1..], "")[i - 1];
    } else {
      SplitLinesAtChar(s, cur);
      assert forall c :: c in cur + [s[0]] ==> c in cur || c == s[0];
      SplitLinesShape(s[1..], cur + [s[0]]);
    }
  }

  /** `text.split(/\r?\n/)`. */
  function Lines(s: string): (r: seq<string>)
    ensures |r| == CountLF(s) + 1
    ensures forall i :: 0 <= i < |r| ==> '\n' !in r[i]
  {
    SplitLinesShape(s, "");
    SplitLines(s, "")
  }

  /** Lines joined back with LF. */
  function Join(ls: seq<string>): string
    requires |ls| > 0
  {
    if |ls| == 1 then ls[0] else ls[0] + "\n" + Join(ls[1..])
  }

  /** Every LF written as CRLF. */
  function ToCRLF(s: string): string
  {
    if s == "" then ""
    else (if s[0] == '\n' then "\r\n" else [s[0]]) + ToCRLF(s[1..])
  }

  lemma JoinCons(x: string, ls: seq<string>)
    requires |ls| > 0
    ensures Join([x] + ls) == x + "\n" + Join(ls)
  {
    assert ([x] + ls)[0] == x && ([x] + ls)[1..] == ls;
  }

  /** The text holds no CR character. */
  predicate NoCR(s: string)
    decreases |s|
  {
    s == "" || (s[0] != '\r' && NoCR(s[1..]))
  }

  lemma {:induction false} SplitLinesJoin(s: string, cur: string)
    requires NoCR(s) && !EndsInCR(cur)
    ensures Join(SplitLines(s, cur)) == cur + s
    decreases |s|
  {
    if s != "" {
      var c := s[0];
      var t := s[1..];
      if c == '\n' {
        SplitLinesAtLF(s, cur);
        SplitLinesJoin(t, "");
        JoinCons(cur, SplitLines(t, ""));
        assert "" + t == t;
        assert cur + "\n" + t == cur + s;
      } else {
        SplitLinesAtChar(s, cur);
        SplitLinesJoin(t, cur + [c]);
        assert cur + [c] + t == cur + s;
      }
    }
  }

  /** Without CRs, splitting into lines and joining them with LF gives the
      text back: no character is lost or added. */
  lemma LinesRoundTrip(s: string)
    requires NoCR(s)
    ensures Join(Lines(s)) == s
  {
    assert !EndsInCR("");
    SplitLinesJoin(s, "");
  }

  lemma {:induction false} SplitLinesCRLF(s: string, cur: string)
    requires NoCR(s) && !EndsInCR(cur)
    ensures SplitLines(ToCRLF(s), cur) == SplitLines(s, cur)
    decreases |s|
  {
    if s == "" {
    } else if s[0] == '\n' {
      var t := ToCRLF(s[1..]);
      var u := "\r\n" + t;
      assert ToCRLF(s) == u;
      assert u[0] == '\r' && u[1..] == "\n" + t;
      SplitLinesAtChar(u, cur);
      SplitLinesAtLF("\n" + t, cur + "\r");
      assert ("\n" + t)[1..] == t;
      assert DropCR(cur + "\r") == cur;
      SplitLinesAtLF(s, cur);
      SplitLinesCRLF(s[1..], "");
    } else {
      var t := ToCRLF(s[1..]);
      assert ToCRLF(s) == [s[0]] + t;
      SplitLinesAtChar([s[0]] + t, cur);
      assert ([s[0]] + t)[1..] == t;
      SplitLinesAtChar(s, cur);
      SplitLinesCRLF(s[1..], cur + [s[0]]);
    }
  }

  /** CRLF text splits into the same lines as the same text with LF. */
  lemma LinesCRLF(s: string)
    requires NoCR(s)
    ensures Lines(ToCRLF(s)) == Lines(s)
  {
    SplitLinesCRLF(s, "");
  }

  lemma {:induction false} SplitLinesAppend(a: string, b: string, cur: string)
    requires !EndsInCR(cur + a)
    ensures SplitLines(a + "\n" + b, cur) == SplitLines(a, cur) + SplitLines(b, "")
    decreases |a|
  {
    var s := a + "\n" + b;
    if a == "" {
      assert s == "\n" + b && s[1..] == b;
      assert cur + a == cur;
    } else if a[0] == '\n' {
      assert s[0] == '\n' && s[1..] == a[1..] + "\n" + b;
      assert a[1..] == "" || (cur + a)[|cur + a| - 1] == a[1..][|a[1..]| - 1];
      SplitLinesAppend(a[1..], b, "");
      assert "" + a[1..] == a[1..];
    } else {
      assert s[0] == a[0] && s[1..] == a[1..] + "\n" + b;
      assert cur + [a[0]] + a[1..] == cur + a;
      SplitLinesAppend(a[1..], b, cur + [a[0]]);
    }
  }

  /** The lines of two texts joined by an LF are the lines of the first
      followed by the lines of the second. */
  lemma LinesAppend(a: string, b: string)
    requires !EndsInCR(a)
    ensures Lines(a + "\n" + b) == Lines(a) + Lines(b)
  {
    assert "" + a == a;
    SplitLinesAppend(a, b, "");
  }

  // ---------------------------------------------------------------------
  // Line filter
  // ---------------------------------------------------------------------

  /** A line is kept unless it is blank or its very first character is '#';
      an indented '#' line is kept. */
  predicate Keep(l: string)
  {
    Trim(l) != "" && !(|l| > 0 && l[0] == '#')
  }

  /** `xs.filter(p)`, in input order. */
  function Filter<T>(xs: seq<T>, p: T -> bool): (r: seq<T>)
    ensures |r| <= |xs|
  {
    if |xs| == 0 then []
    else (if p(xs[0]) then [xs[0]] else []) + Filter(xs[1..], p)
  }

  /** The kept elements are exactly the inputs that pass the test. */
  lemma {:induction false} FilterMembers<T>(xs: seq<T>, p: T -> bool)
    ensures forall x :: x in Filter(xs, p) <==> x in xs && p(x)
  {
    if |xs| > 0 {
      FilterMembers(xs[1..], p);
      assert xs == [xs[0]] + xs[1..];
    }
  }

  /** Filtering commutes with concatenation, so the kept elements keep their
      relative order. */
  lemma {:induction false} FilterAppend<T>(a: seq<T>, b: seq<T>, p: T -> bool)
    ensures Filter(a + b, p) == Filter(a, p) + Filter(b, p)
  {
    if |a| > 0 {
      var head := if p(a[0]) then [a[0]] else [];
      assert (a + b)[0] == a[0] && (a + b)[1..] == a[1..] + b;
      assert Filter(a + b, p) == head + Filter(a[1..] + b, p);
      FilterAppend(a[1..], b, p);
      assert head + (Filter(a[1..], p) + Filter(b, p)) == (head + Filter(a[1..], p)) + Filter(b, p);
    } else {
      assert a + b == b;
    }
  }

  /** The lines that survive the filter: exactly the lines with a
      non-whitespace character whose first character is not '#'. */
  function Kept(ls: seq<string>): (r: seq<string>)
    ensures |r| <= |ls|
    ensures forall l :: l in r <==> l in ls && !AllSpace(l) && !(|l| > 0 && l[0] == '#')
  {
    FilterMembers(ls, Keep);
    forall l: string ensures Keep(l) <==> !AllSpace(l) && !(|l| > 0 && l[0] == '#') {
      TrimEmptyIffBlank(l);
    }
    Filter(ls, Keep)
  }

  // ---------------------------------------------------------------------
  // split(/[,\s]+/)
  // ---------------------------------------------------------------------

  predicate IsSep(c: char)
  {
    c == ',' || IsSpace(c)
  }

  predicate NoSep(s: string)
  {
    forall i :: 0 <= i < |s| ==> !IsSep(s[i])
  }

  predicate AllSeps(s: string)
  {
    forall i :: 0 <= i < |s| ==> IsSep(s[i])
  }

  /** The input after its leading run of separators. */
  function SkipSeps(s: string): (r: string)
    ensures |r| <= |s| && r == s[|s| - |r|..]
    ensures |r| > 0 ==> !IsSep(r[0])
    ensures AllSeps(s[..|s| - |r|])
  {
    if |s| > 0 && IsSep(s[0]) then SkipSeps(s[1..]) else s
  }

  /** Index of the first separator, or the length when there is none. */
  function FirstSep(s: string): (k: nat)
    ensures k <= |s|
    ensures NoSep(s[..k])
    ensures k < |s| ==> IsSep(s[k])
  {
    if s == "" || IsSep(s[0]) then 0 else 1 + FirstSep(s[1..])
  }

  /** Splitting continued from a partly read field `cur`: a maximal run of
      separators ends a field; a leading run yields an empty first field and
      a trailing run an empty last field. */
  function Fields(s: string, cur: string): (r: seq<string>)
    ensures |r| >= 1
    decreases |s|
  {
    if s == "" then [cur]
    else if IsSep(s[0]) then [cur] + Fields(SkipSeps(s), "")
    else Fields(s[1..], cur + [s[0]])
  }

  lemma FieldsAtSep(s: string, cur: string)
    requires s != "" && IsSep(s[0])
    ensures Fields(s, cur) == [cur] + Fields(SkipSeps(s), "")
  {
  }

  lemma FieldsAtWordChar(s: string, cur: string)
    requires s != "" && !IsSep(s[0])
    ensures Fields(s, cur) == Fields(s[1..], cur + [s[0]])
  {
  }

  /** The first field is the pending one extended up to the first
      separator. */
  lemma {:induction false} FieldsFirst(s: string, cur: string)
    ensures Fields(s, cur)[0] == cur + s[..FirstSep(s)]
    decreases |s|
  {
    if s == "" {
      assert cur + s[..0] == cur;
    } else if IsSep(s[0]) {
      FieldsAtSep(s, cur);
      assert cur + s[..0] == cur;
    } else {
      FieldsAtWordChar(s, cur);
      FieldsFirst(s[1..], cur + [s[0]]);
      var k := FirstSep(s[1..]);
      assert FirstSep(s) == k + 1;
      assert s[..k + 1] == [s[0]] + s[1..][..k];
      assert cur + [s[0]] + s[1..][..k] == cur + ([s[0]] + s[1..][..k]);
    }
  }

  lemma NoSepSnoc(cur: string, c: char)
    requires NoSep(cur) && !IsSep(c)
    ensures NoSep(cur + [c])
  {
    var x := cur + [c];
    assert forall i :: 0 <= i < |cur| ==> x[i] == cur[i];
  }

  lemma NoSepCons(s: string)
    requires s != "" && !IsSep(s[0])
    ensures NoSep(s) <==> NoSep(s[1..])
  {
    if NoSep(s[1..]) {
      forall i | 0 <= i < |s| ensures !IsSep(s[i]) {
        if i > 0 { assert s[i] == s[1..][i - 1]; }
      }
    }
  }

  /** No field holds a separator. */
  lemma {:induction false} FieldsNoSep(s: string, cur: string)
    requires NoSep(cur)
    ensures forall k :: 0 <= k < |Fields(s, cur)| ==> NoSep(Fields(s, cur)[k])
    decreases |s|
  {
    if s == "" {
    } else if IsSep(s[0]) {
      var tail := Fields(SkipSeps(s), "");
      FieldsAtSep(s, cur);
      FieldsNoSep(SkipSeps(s), "");
      var r := [cur] + tail;
      assert forall k :: 0 < k < |r| ==> r[k] == tail[k - 1];
    } else {
      FieldsAtWordChar(s, cur);
      NoSepSnoc(cur, s[0]);
      FieldsNoSep(s[1..], cur + [s[0]]);
    }
  }

  /** Only the first and the last field may be empty, and there is a single
      field exactly when the input has no separator. */
  lemma {:induction false} FieldsShape(s: string, cur: string)
    ensures var r := Fields(s, cur);
      && (forall k :: 0 < k < |r| - 1 ==> r[k] != "")
      && (|r| == 1 <==> NoSep(s))
    decreases |s|
  {
    if s == "" {
    } else if IsSep(s[0]) {
      var rest := SkipSeps(s);
      var tail := Fields(rest, "");
      FieldsAtSep(s, cur);
      FieldsShape(rest, "");
      FieldsFirst(rest, "");
      assert rest != "" ==> FirstSep(rest) > 0 && tail[0] != "";
      var r := [cur] + tail;
      assert forall k :: 0 < k < |r| ==> r[k] == tail[k - 1];
    } else {
      FieldsAtWordChar(s, cur);
      FieldsShape(s[1..], cur + [s[0]]);
      NoSepCons(s);
    }
  }

  /** When the input has a separator, the first field ends at it and the
      rest of the fields are those after the whole separator run. */
  lemma {:induction false} FieldsRest(s: string, cur: string)
    requires !NoSep(s)
    ensures var k := FirstSep(s);
      Fields(s, cur) == [cur + s[..k]] + Fields(SkipSeps(s[k..]), "")
    decreases |s|
  {
    if IsSep(s[0]) {
      FieldsAtSep(s, cur);
      CutAtZero(s, cur);
    } else {
      var t := s[1..];
      var c := cur + [s[0]];
      FieldsAtWordChar(s, cur);
      NoSepCons(s);
      FieldsRest(t, c);
      CutAfterWordChar(s, cur);
    }
  }

  lemma CutAtZero(s: string, cur: string)
    requires s != "" && IsSep(s[0])
    ensures FirstSep(s) == 0 && s[FirstSep(s)..] == s && cur + s[..FirstSep(s)] == cur
  {
  }

  /** Moving a word character from the input to the pending field does not
      move the cut. */
  lemma CutAfterWordChar(s: string, cur: string)
    requires s != "" && !IsSep(s[0])
    ensures var t := s[1..];
      var k := FirstSep(s);
      var k' := FirstSep(t);
      && k == k' + 1
      && t[k'..] == s[k..]
      && cur + [s[0]] + t[..k'] == cur + s[..k]
  {
    var t := s[1..];
    var k' := FirstSep(t);
    assert s[..k' + 1] == [s[0]] + t[..k'];
  }

  /** `s.split(/[,\s]+/)`. */
  function Tokens(s: string): (r: seq<string>)
    ensures |r| >= 1
    ensures r[0] == s[..FirstSep(s)]
    ensures forall k :: 0 <= k < |r| ==> NoSep(r[k])
    ensures forall k :: 0 < k < |r| - 1 ==> r[k] != ""
    ensures |r| == 1 <==> NoSep(s)
  {
    FieldsFirst(s, "");
    FieldsNoSep(s, "");
    FieldsShape(s, "");
    assert "" + s[..FirstSep(s)] == s[..FirstSep(s)];
    Fields(s, "")
  }

  /** The tokens after the first: splitting resumes after the whole
      separator run (commas, spaces, tabs, mixed) that ends the first
      token. */
  lemma TokensRest(s: string)
    ensures !NoSep(s) ==>
      var k := FirstSep(s);
      Tokens(s) == [s[..k]] + Tokens(SkipSeps(s[k..]))
  {
    if !NoSep(s) {
      FieldsRest(s, "");
      assert "" + s[..FirstSep(s)] == s[..FirstSep(s)];
    }
  }

  /** The input with every separator removed. */
  function RemoveSeps(s: string): string
  {
    if s == "" then "" else (if IsSep(s[0]) then "" else [s[0]]) + RemoveSeps(s[1..])
  }

  function Concat(ts: seq<string>): string
  {
    if |ts| == 0 then "" else ts[0] + Concat(ts[1..])
  }

  lemma {:induction false} SkipSepsRemoves(s: string)
    ensures RemoveSeps(SkipSeps(s)) == RemoveSeps(s)
  {
    if |s| > 0 && IsSep(s[0]) {
      SkipSepsRemoves(s[1..]);
    }
  }

  lemma ConcatCons(x: string, ts: seq<string>)
    ensures Concat([x] + ts) == x + Concat(ts)
  {
    assert ([x] + ts)[0] == x && ([x] + ts)[1..] == ts;
  }

  lemma {:induction false} FieldsConcat(s: string, cur: string)
    ensures Concat(Fields(s, cur)) == cur + RemoveSeps(s)
    decreases |s|
  {
    if s == "" {
      assert cur + "" == cur;
      assert Concat([cur]) == cur + Concat([]);
    } else if IsSep(s[0]) {
      var rest := SkipSeps(s);
      FieldsAtSep(s, cur);
      FieldsConcat(rest, "");
      assert "" + RemoveSeps(rest) == RemoveSeps(rest);
      SkipSepsRemoves(s);
      ConcatCons(cur, Fields(rest, ""));
    } else {
      FieldsAtWordChar(s, cur);
      FieldsConcat(s[1..], cur + [s[0]]);
      assert RemoveSeps(s) == [s[0]] + RemoveSeps(s[1..]);
      assert cur + [s[0]] + RemoveSeps(s[1..]) == cur + ([s[0]] + RemoveSeps(s[1..]));
    }
  }

  /** The tokens are exactly the non-separator characters of the input, in
      order: splitting drops the separators and nothing else. */
  lemma TokensConcat(s: string)
    ensures Concat(Tokens(s)) == RemoveSeps(s)
  {
    FieldsConcat(s, "");
    assert "" + RemoveSeps(s) == RemoveSeps(s);
  }

  lemma {:induction false} FieldsSkipWord(w: string, s: string, cur: string)
    requires NoSep(w)
    ensures Fields(w + s, cur) == Fields(s, cur + w)
    decreases |w|
  {
    if w == "" {
      assert w + s == s && cur + w == cur;
    } else {
      assert (w + s)[0] == w[0] && (w + s)[1..] == w[1..] + s;
      assert !IsSep(w[0]);
      assert cur + [w[0]] + w[1..] == cur + w;
      FieldsSkipWord(w[1..], s, cur + [w[0]]);
    }
  }

  /** A word, a comma and another word split into exactly those two words;
      the second may be empty (a trailing comma). */
  lemma TokensOfPair(d: string, v: string)
    requires NoSep(d) && NoSep(v)
    ensures Tokens(d + "," + v) == [d, v]
  {
    FieldsSkipWord(d, "," + v, "");
    assert d + "," + v == d + ("," + v);
    assert "" + d == d;
    assert SkipSeps("," + v) == v by {
      assert ("," + v)[1..] == v;
    }
    assert Fields(v, "") == [v] by {
      FieldsSkipWord(v, "", "");
      assert v + "" == v && "" + v == v;
    }
  }

  // ---------------------------------------------------------------------
  // Rows
  // ---------------------------------------------------------------------

  /** One kept line to a row: the first token of the trimmed line is the
      time; the second, if any, is the value when it parses finite. */
  function ParseRow(l: string, num: string -> Raw): (r: Row)
    ensures r.time == Trim(l)[..FirstSep(Trim(l))] && NoSep(r.time)
    ensures NoSep(Trim(l)) ==> r.value == None
    ensures !NoSep(Trim(l)) ==>
      var t := Trim(l);
      var rest := SkipSeps(t[FirstSep(t)..]);
      r.value == Finite(ToNumber(num, rest[..FirstSep(rest)]))
  {
    TokensRest(Trim(l));
    var parts := Tokens(Trim(l));
    Row(parts[0], if |parts| >= 2 then Finite(ToNumber(num, parts[1])) else None)
  }

  function Rows(ls: seq<string>, num: string -> Raw): (r: seq<Row>)
    ensures |r| == |ls|
    ensures forall i :: 0 <= i < |ls| ==> r[i] == ParseRow(ls[i], num)
  {
    seq(|ls|, i requires 0 <= i < |ls| => ParseRow(ls[i], num))
  }

  /** The rows of a response body: one per kept line, in input order. */
  function Parse(text: string, num: string -> Raw): (r: seq<Row>)
    ensures |r| == |Kept(Lines(text))|
    ensures forall i :: 0 <= i < |r| ==> r[i] == ParseRow(Kept(Lines(text))[i], num)
  {
    Rows(Kept(Lines(text)), num)
  }

  /** A row's time is the trimmed line up to its first comma or whitespace.
      It is empty exactly when the trimmed line starts with a comma. */
  lemma RowTime(l: string, num: string -> Raw)
    requires Keep(l)
    ensures var t := Trim(l);
      && ParseRow(l, num).time == t[..FirstSep(t)]
      && NoSep(ParseRow(l, num).time)
      && (ParseRow(l, num).time == "" <==> t[0] == ',')
  {
    var t := Trim(l);
    assert t != "";
    assert !IsSpace(t[0]);
  }

  /** A line with a single column has no value. */
  lemma SingleColumnHasNoValue(l: string, num: string -> Raw)
    requires NoSep(Trim(l))
    ensures ParseRow(l, num).value == None
  {
  }

  /** The usual `time,value` line: the time is the first column and the
      value is the second parsed as a number, absent unless finite; a
      trailing comma (empty second column) reads as 0, since `Number("")`
      is 0. */
  lemma RowOfPair(d: string, v: string, num: string -> Raw)
    requires NoSep(d) && NoSep(v)
    ensures ParseRow(d + "," + v, num) == Row(d, Finite(ToNumber(num, v)))
    ensures v == "" ==> ParseRow(d + "," + v, num) == Row(d, Some(0.0))
  {
    PairIsTrimmed(d, v);
    TokensOfPair(d, v);
  }

  /** A `time,value` line has no surrounding whitespace to trim. */
  lemma PairIsTrimmed(d: string, v: string)
    requires NoSep(d) && NoSep(v)
    ensures Trim(d + "," + v) == d + "," + v
  {
    var l := d + "," + v;
    if d == "" {
      assert l[0] == ',';
    } else {
      assert l[0] == d[0] && !IsSep(d[0]);
    }
    if v == "" {
      assert l[|l| - 1] == ',';
    } else {
      assert l[|l| - 1] == v[|v| - 1] && !IsSep(v[|v| - 1]);
    }
    TrimFixpoint(l);
  }

  lemma SkipOneComma(w: string)
    requires w == "" || !IsSep(w[0])
    ensures SkipSeps("," + w) == w
  {
    assert ("," + w)[1..] == w;
  }

  /** A comma, a non-empty word and another comma: the word is the second
      field. */
  lemma FieldsWordCommaWord(v: string, e: string, cur: string)
    requires v != "" && NoSep(v)
    ensures var fs := Fields("," + v + "," + e, cur);
      |fs| >= 2 && fs[0] == cur && fs[1] == v
  {
    var r2 := "," + e;
    var w := v + r2;
    assert "," + v + "," + e == "," + w;
    assert w[0] == v[0];
    SkipOneComma(w);
    FieldsAtSep("," + w, cur);
    FieldsSkipWord(v, r2, "");
    assert "" + v == v;
    FieldsAtSep(r2, v);
    var tail := Fields(w, "");
    assert tail == [v] + Fields(SkipSeps(r2), "");
    assert Fields("," + w, cur) == [cur] + tail;
  }

  /** After a word, a comma and a non-empty word, further columns do not
      change the first two tokens. */
  lemma TokensAfterPair(d: string, v: string, e: string)
    requires NoSep(d) && v != "" && NoSep(v)
    ensures var ts := Tokens(d + "," + v + "," + e);
      |ts| >= 2 && ts[0] == d && ts[1] == v
  {
    var r1 := "," + v + "," + e;
    assert d + "," + v + "," + e == d + r1;
    FieldsSkipWord(d, r1, "");
    assert "" + d == d;
    FieldsWordCommaWord(v, e, d);
  }

  /** Columns after the second are ignored. */
  lemma RowIgnoresLaterColumns(d: string, v: string, e: string, num: string -> Raw)
    requires NoSep(d) && v != "" && NoSep(v)
    requires e == "" || !IsSpace(e[|e| - 1])
    ensures ParseRow(d + "," + v + "," + e, num) == ParseRow(d + "," + v, num)
  {
    var l := d + "," + v + "," + e;
    assert l[0] == if d == "" then ',' else d[0];
    assert d != "" ==> !IsSep(d[0]);
    assert l[|l| - 1] == if e == "" then ',' else e[|e| - 1];
    TrimFixpoint(l);
    TokensAfterPair(d, v, e);
    RowOfPair(d, v, num);
  }

  /** A separator-free word followed by a separator or nothing: the first
      separator is right after the word. */
  lemma {:induction false} FirstSepAfterWord(d: string, x: string)
    requires NoSep(d) && (x == "" || IsSep(x[0]))
    ensures FirstSep(d + x) == |d|
    decreases |d|
  {
    if d == "" {
      assert d + x == x;
    } else {
      assert (d + x)[0] == d[0] && (d + x)[1..] == d[1..] + x;
      FirstSepAfterWord(d[1..], x);
    }
  }

  /** A whole run of separators is skipped, and nothing more. */
  lemma {:induction false} SkipSepsRun(sep: string, v: string)
    requires AllSeps(sep) && (v == "" || !IsSep(v[0]))
    ensures SkipSeps(sep + v) == v
    decreases |sep|
  {
    if sep == "" {
      assert sep + v == v;
    } else {
      assert (sep + v)[0] == sep[0] && (sep + v)[1..] == sep[1..] + v;
      SkipSepsRun(sep[1..], v);
    }
  }

  /** A time and a value separated by any run of commas and whitespace (a
      tab, spaces, ", "): the row is the time and the value's finite
      number. */
  lemma RowOfSeparatedPair(d: string, sep: string, v: string, num: string -> Raw)
    requires d != "" && NoSep(d) && sep != "" && AllSeps(sep) && v != "" && NoSep(v)
    ensures ParseRow(d + sep + v, num) == Row(d, Finite(ToNumber(num, v)))
  {
    var l := d + sep + v;
    SeparatedPairCuts(d, sep, v);
    WholeWord(v);
    assert !NoSep(l) by {
      assert IsSep(l[|d|]);
    }
  }

  /** Where the parser cuts `d + sep + v`: nothing to trim, the first
      separator right after d, and v after the separator run. */
  lemma SeparatedPairCuts(d: string, sep: string, v: string)
    requires d != "" && NoSep(d) && sep != "" && AllSeps(sep) && v != "" && NoSep(v)
    ensures var l := d + sep + v;
      && Trim(l) == l
      && FirstSep(l) == |d| && l[..|d|] == d && IsSep(l[|d|])
      && SkipSeps(l[|d|..]) == v
  {
    SeparatedPairTrimmed(d, sep, v);
    var l := d + sep + v;
    assert l == d + (sep + v);
    assert (sep + v)[0] == sep[0];
    FirstSepAfterWord(d, sep + v);
    assert l[|d|..] == sep + v;
    SkipSepsRun(sep, v);
  }

  lemma SeparatedPairTrimmed(d: string, sep: string, v: string)
    requires d != "" && NoSep(d) && v != "" && NoSep(v)
    ensures Trim(d + sep + v) == d + sep + v
  {
    var l := d + sep + v;
    assert l[0] == d[0] && l[|l| - 1] == v[|v| - 1];
    TrimFixpoint(l);
  }

  /** A separator-free word is a single token. */
  lemma WholeWord(v: string)
    requires NoSep(v)
    ensures FirstSep(v) == |v| && v[..FirstSep(v)] == v
  {
    assert v + "" == v;
    FirstSepAfterWord(v, "");
  }

  /** A text without LF is one line, and gives one row or none. */
  lemma ParseLine(l: string, num: string -> Raw)
    requires '\n' !in l
    ensures Keep(l) ==> Parse(l, num) == [ParseRow(l, num)]
    ensures !Keep(l) ==> Parse(l, num) == []
  {
    assert Lines(l) == [l] by {
      SplitLinesNoLF(l, "");
      assert "" + l == l;
    }
    assert Filter([l], Keep) == (if Keep(l) then [l] else []) + Filter([], Keep);
  }

  lemma {:induction false} SplitLinesNoLF(s: string, cur: string)
    requires '\n' !in s
    ensures SplitLines(s, cur) == [cur + s]
    decreases |s|
  {
    if s != "" {
      assert s[0] in s;
      assert forall c :: c in s[1..] ==> c in s;
      SplitLinesNoLF(s[1..], cur + [s[0]]);
      assert cur + [s[0]] + s[1..] == cur + s;
    } else {
      assert cur + s == cur;
    }
  }

  /** The rows of two texts joined by an LF are the rows of the first
      followed by the rows of the second. */
  lemma ParseAppend(a: string, b: string, num: string -> Raw)
    requires !EndsInCR(a)
    ensures Parse(a + "\n" + b, num) == Parse(a, num) + Parse(b, num)
  {
    LinesAppend(a, b);
    FilterAppend(Lines(a), Lines(b), Keep);
    RowsAppend(Kept(Lines(a)), Kept(Lines(b)), num);
  }

  lemma RowsAppend(x: seq<string>, y: seq<string>, num: string -> Raw)
    ensures Rows(x + y, num) == Rows(x, num) + Rows(y, num)
  {
    var l := Rows(x + y, num);
    var r := Rows(x, num) + Rows(y, num);
    assert |l| == |r|;
    forall i | 0 <= i < |l| ensures l[i] == r[i] {
      if i < |x| {
        assert (x + y)[i] == x[i];
      } else {
        assert (x + y)[i] == y[i - |x|];
      }
    }
  }

  /** CRLF and LF line endings give the same rows. */
  lemma ParseCRLF(text: string, num: string -> Raw)
    requires NoCR(text)
    ensures Parse(ToCRLF(text), num) == Parse(text, num)
  {
    LinesCRLF(text);
  }

  // ---------------------------------------------------------------------
  // The handler
  // ---------------------------------------------------------------------

  /** The handler: 400 for a missing parameter before anything else, 500
      when the upstream call throws or answers with a non-ok status, else 200
      with the parsed rows. */
  function Handle(q: Query, up: Upstream, num: string -> Raw): (r: Response)
    ensures r.status == 400 <==> !Complete(q)
    ensures r.status == 200 <==> Complete(q) && up.Answered? && up.ok
    ensures r.status == 400 || r.status == 200 || r.status == 500
    ensures r.body.Data? <==> r.status == 200
    ensures r.status == 200 ==>
      && r.body.dataset == q.dataset.value && r.body.variable == q.variable.value
      && r.body.lat == ToNumber(num, q.lat.value) && r.body.lon == ToNumber(num, q.lon.value)
      && r.body.rows == Parse(up.text, num)
    ensures Complete(q) && up.Threw? ==> r == Response(500, Failure(up.message))
  {
    if !Complete(q) then Response(400, Failure(MissingParams))
    else match up
      case Threw(m) => Response(500, Failure(m))
      case Answered(ok, status, text) =>
        if !ok then
          Response(500, Failure(FailedPrefix + IntText(status) + "): " + Excerpt(text)))
        else
          Response(200, Data(q.dataset.value, q.variable.value,
            ToNumber(num, q.lat.value), ToNumber(num, q.lon.value), Parse(text, num)))
  }

  /** A missing parameter is answered with the fixed 400 message whatever the
      upstream would have said: no request is made. */
  lemma MissingParamsShortCircuit(q: Query, up1: Upstream, up2: Upstream, num: string -> Raw)
    requires !Complete(q)
    ensures Handle(q, up1, num) == Handle(q, up2, num)
    ensures Handle(q, up1, num).body == Failure(MissingParams)
  {
  }

  /** Each of the six parameters is required on its own: leaving out any
      one of them, or passing it empty, gives the 400 answer. */
  lemma EachParamRequired(q: Query, up: Upstream, num: string -> Raw)
    ensures (|| !Given(q.dataset) || !Given(q.variable) || !Given(q.lat) || !Given(q.lon)
             || !Given(q.start) || !Given(q.end))
      <==> Handle(q, up, num) == Response(400, Failure(MissingParams))
  {
  }

  /** The 500 message for a non-ok answer starts with the fixed prefix and
      the status code, and ends with the first (at most 240) characters of the
      upstream body. */
  lemma UpstreamFailureMessage(q: Query, status: int, text: string, num: string -> Raw)
    requires Complete(q)
    ensures var e := Handle(q, Answered(false, status, text), num).body.error;
      var k := if |text| < ExcerptLength then |text| else ExcerptLength;
      var n := |FailedPrefix| + |IntText(status)|;
      && |e| == n + 3 + k
      && e[..|FailedPrefix|] == FailedPrefix
      && e[|FailedPrefix|..n] == IntText(status)
      && e[n..n + 3] == "): "
      && e[|e| - k..] == text[..k]
  {
    var x := Excerpt(text);
    var e := FailedPrefix + IntText(status) + "): " + x;
    assert e[|e| - |x|..] == x;
  }
}
