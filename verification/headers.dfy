/**
 * The header loop of `req` (main.go): each configured header string is split
 * at its first colon with `strings.SplitN(h, ":", 2)`; a string without a
 * colon is fatal. The loop runs inside every request, not once before the run.
 */
module Headers {
  import opened Wrappers

  /** The index of the first `:` in `h`, or `|h|` when there is none. */
  function FirstColon(h: string): (i: nat)
    ensures i <= |h|
    ensures i < |h| ==> h[i] == ':'
    ensures forall j :: 0 <= j < i ==> h[j] != ':'
  {
    if h == [] then 0
    else if h[0] == ':' then 0
    else 1 + FirstColon(h[1..])
  }

  /** `strings.SplitN(h, ":", 2)`: the whole string, or the parts before and after the first colon. */
  function SplitN2(h: string): (pieces: seq<string>)
    ensures 1 <= |pieces| <= 2
    ensures |pieces| == 1 <==> ':' !in h
    ensures |pieces| == 1 ==> pieces[0] == h
    ensures |pieces| == 2 ==> ':' !in pieces[0] && pieces[0] + ":" + pieces[1] == h
  {
    var i := FirstColon(h);
    if i == |h| then
      [h]
    else
      assert h == h[..i] + ":" + h[i + 1..];
      [h[..i], h[i + 1..]]
  }

  datatype Header = Header(name: string, value: string)

  /** `log.Fatal` on a split that did not give two pieces; it reports the piece count. */
  datatype HeaderError = InvalidHeader(pieces: nat)

  function ParseHeader(h: string): (r: Result<Header, HeaderError>)
    ensures r.Err? <==> ':' !in h
    ensures r.Err? ==> r.error == InvalidHeader(1)
    ensures r.Ok? ==> ':' !in r.value.name && r.value.name + ":" + r.value.value == h
  {
    var split := SplitN2(h);
    if |split| != 2 then Err(InvalidHeader(|split|)) else Ok(Header(split[0], split[1]))
  }

  /** The `Name:Value` form a header is configured in. */
  function Join(hd: Header): string {
    hd.name + ":" + hd.value
  }

  /**
   * Splitting undoes joining whenever the name has no colon: the value comes
   * back verbatim, further colons and surrounding spaces included.
   */
  lemma ParseJoin(hd: Header)
    requires ':' !in hd.name
    ensures ParseHeader(Join(hd)) == Ok(hd)
  {
    var h := Join(hd);
    assert h[|hd.name|] == ':';
    assert forall j :: 0 <= j < |hd.name| ==> h[j] == hd.name[j];
    var i := FirstColon(h);
    assert i == |hd.name|;
    assert h[..i] == hd.name;
    assert h[i + 1..] == hd.value;
  }

  /** Joining undoes splitting: a header that parses is exactly its name, a colon and its value. */
  lemma JoinParse(h: string)
    requires ParseHeader(h).Ok?
    ensures Join(ParseHeader(h).value) == h
  {
  }

  /** A header with no colon is fatal. */
  lemma MalformedHeaderExample()
    ensures ParseHeader("X-Broken") == Err(InvalidHeader(1))
  {
    assert ':' !in "X-Broken";
  }

  /** The value keeps every colon after the first; the name may be empty. */
  lemma HeaderExamples()
    ensures ParseHeader("Host:a:b") == Ok(Header("Host", "a:b"))
    ensures ParseHeader(":x") == Ok(Header("", "x"))
  {
    assert ':' !in "Host";
    ParseJoin(Header("Host", "a:b"));
    assert Join(Header("Host", "a:b")) == "Host:a:b";
    ParseJoin(Header("", "x"));
    assert Join(Header("", "x")) == ":x";
  }

  /**
   * The loop over the configured headers: the header pairs set on the request,
   * in order, or the fatal error of the first header without a colon.
   */
  method SetHeaders(headers: seq<string>) returns (r: Result<seq<Header>, HeaderError>)
    ensures r.Ok? <==> forall k :: 0 <= k < |headers| ==> ':' in headers[k]
    ensures r.Ok? ==> |r.value| == |headers|
    ensures r.Ok? ==> forall k :: 0 <= k < |headers| ==> ParseHeader(headers[k]) == Ok(r.value[k])
    ensures r.Err? ==> r.error == InvalidHeader(1)
  {
    var pairs: seq<Header> := [];
    var k := 0;
    while k < |headers|
      invariant 0 <= k <= |headers|
      invariant |pairs| == k
      invariant forall j :: 0 <= j < k ==> ParseHeader(headers[j]) == Ok(pairs[j])
    {
      var split := SplitN2(headers[k]);
      if |split| != 2 {
        return Err(InvalidHeader(|split|));
      }
      pairs := pairs + [Header(split[0], split[1])];
      k := k + 1;
    }
    return Ok(pairs);
  }
}
