/**
 * `getIp`: the client address read from the proxy headers of a request, by a
 * fixed priority among six headers.
 */
module Geo {
  import opened Wrappers
  import opened JsText
  import opened HttpHeaders

  /** JavaScript truthiness of a header value: present and not the empty string. */
  predicate Truthy(v: Option<string>) {
    v.Some? && v.value != ""
  }

  const CfConnectingIp: string := "cf-connecting-ip"
  const XForwardedFor: string := "x-forwarded-for"
  const XRealIp: string := "x-real-ip"
  const TrueClientIp: string := "true-client-ip"
  const FastlyClientIp: string := "fastly-client-ip"
  const Forwarded: string := "forwarded"

  /** `s.split(",")[0]`: the text before the first comma, or all of it. */
  function BeforeComma(s: string): (r: string)
    ensures |r| <= |s| && r == s[..|r|]
    ensures forall i :: 0 <= i < |r| ==> r[i] != ','
    ensures |r| < |s| ==> s[|r|] == ','
  {
    if s == [] || s[0] == ',' then [] else [s[0]] + BeforeComma(s[1..])
  }

  /** The longest prefix free of `;` and `"`: what the greedy `[^;"]+` consumes. */
  function Run(t: string): (r: string)
    ensures |r| <= |t| && r == t[..|r|]
    ensures forall i :: 0 <= i < |r| ==> r[i] != ';' && r[i] != '"'
    ensures |r| < |t| ==> t[|r|] == ';' || t[|r|] == '"'
  {
    if t == [] || t[0] == ';' || t[0] == '"' then [] else [t[0]] + Run(t[1..])
  }

  /**
   * The capture of `/for="?([^;"]+)"?/` for a match that starts at `i`, if one
   * does: "for=", an optional quote, then a non-empty run free of `;` and `"`.
   * When the quote is there but nothing follows it, backtracking over the
   * optional quote cannot help, since `[^;"]` cannot match the quote itself.
   */
  function MatchAt(s: string, i: nat): (r: Option<string>)
    ensures r.Some? ==> i + 4 <= |s| && s[i..i + 4] == "for=" && r.value != []
    ensures r.Some? ==> forall k :: 0 <= k < |r.value| ==> r.value[k] != ';' && r.value[k] != '"'
    ensures r.Some? ==> i + 4 < |s| && s[i + 4] == '"' ==> r.value == Run(s[i + 5..])
    ensures r.Some? ==> (i + 4 == |s| || s[i + 4] != '"') ==> r.value == Run(s[i + 4..])
    ensures i + 4 < |s| && s[i..i + 4] == "for=" && s[i + 4] == '"' && Run(s[i + 5..]) != [] ==> r.Some?
    ensures i + 4 <= |s| && s[i..i + 4] == "for=" && (i + 4 == |s| || s[i + 4] != '"') && Run(s[i + 4..]) != [] ==> r.Some?
  {
    if i + 4 <= |s| && s[i..i + 4] == "for=" then
      var k := if i + 4 < |s| && s[i + 4] == '"' then i + 5 else i + 4;
      var run := Run(s[k..]);
      if run != [] then Some(run) else None
    else None
  }

  /** The leftmost match at or after position `from`. */
  function FirstMatchFrom(s: string, from: nat): (r: Option<string>)
    ensures r.None? ==> forall i :: from <= i <= |s| ==> MatchAt(s, i).None?
    ensures r.Some? ==> exists i :: (from <= i <= |s| && MatchAt(s, i) == r
      && forall j :: from <= j < i ==> MatchAt(s, j).None?)
    decreases |s| - from
  {
    if from > |s| then None
    else if MatchAt(s, from).Some? then MatchAt(s, from)
    else FirstMatchFrom(s, from + 1)
  }

  /** `forwarded.match(/for="?([^;"]+)"?/)?.[1]`: commas do not separate elements here. */
  function ForwardedFor(s: string): (r: Option<string>)
    ensures r.None? <==> forall i :: 0 <= i <= |s| ==> MatchAt(s, i).None?
    ensures r.Some? ==> exists i :: (0 <= i <= |s| && MatchAt(s, i) == r
      && forall j :: 0 <= j < i ==> MatchAt(s, j).None?)
  {
    FirstMatchFrom(s, 0)
  }

  /** `getIp`. */
  function GetIp(h: Headers): (r: Option<string>)
    ensures Get(h, CfConnectingIp) != None && Get(h, CfConnectingIp) != Some("") ==> r == Get(h, CfConnectingIp)
    ensures r.None? <==>
      (!Truthy(Get(h, CfConnectingIp)) && !Truthy(Get(h, XForwardedFor)) && !Truthy(Get(h, XRealIp))
       && !Truthy(Get(h, TrueClientIp)) && !Truthy(Get(h, FastlyClientIp))
       && (!Truthy(Get(h, Forwarded)) || ForwardedFor(h[Forwarded]).None?))
  {
    var cf := Get(h, CfConnectingIp);
    if Truthy(cf) then cf
    else
      var xff := Get(h, XForwardedFor);
      if Truthy(xff) then Some(Trim(BeforeComma(xff.value)))
      else
        var realIp := Get(h, XRealIp);
        if Truthy(realIp) then realIp
        else
          var trueClient := Get(h, TrueClientIp);
          if Truthy(trueClient) then trueClient
          else
            var fastly := Get(h, FastlyClientIp);
            if Truthy(fastly) then fastly
            else
              var fwd := Get(h, Forwarded);
              if Truthy(fwd) then ForwardedFor(fwd.value)
              else None
  }

  // ---------------------------------------------------------------------------
  // A reference statement of the priority rule
  // ---------------------------------------------------------------------------

  /** The headers `getIp` consults, most trusted first. */
  const IpHeaders: seq<string> :=
    [CfConnectingIp, XForwardedFor, XRealIp, TrueClientIp, FastlyClientIp, Forwarded]

  /** The first of `names` whose value in `h` is non-empty. */
  function FirstTruthy(h: Headers, names: seq<string>): (r: Option<string>)
    ensures r.Some? ==> r.value in names && Truthy(Get(h, r.value))
    ensures r.None? <==> forall i :: 0 <= i < |names| ==> !Truthy(Get(h, names[i]))
  {
    if names == [] then None
    else if Truthy(Get(h, names[0])) then Some(names[0])
    else FirstTruthy(h, names[1..])
  }

  /** How the value of the chosen header becomes the address. */
  function Extract(name: string, value: string): Option<string> {
    if name == XForwardedFor then Some(Trim(BeforeComma(value)))
    else if name == Forwarded then ForwardedFor(value)
    else Some(value)
  }

  /**
   * `getIp` takes the first non-empty header in priority order and extracts the
   * address from it; once the Forwarded header is reached nothing else is tried.
   */
  lemma {:induction false} GetIpByPriority(h: Headers)
    ensures GetIp(h) == match FirstTruthy(h, IpHeaders)
                        case None => None
                        case Some(name) => Extract(name, h[name])
  {
    var ns := IpHeaders;
    var n1 := ns[1..];
    var n2 := n1[1..];
    var n3 := n2[1..];
    var n4 := n3[1..];
    var n5 := n4[1..];
    assert n5 == [Forwarded] && n5[1..] == [];
    if Truthy(Get(h, CfConnectingIp)) {
      assert FirstTruthy(h, ns) == Some(CfConnectingIp);
    } else if Truthy(Get(h, XForwardedFor)) {
      assert FirstTruthy(h, n1) == Some(XForwardedFor);
    } else if Truthy(Get(h, XRealIp)) {
      assert FirstTruthy(h, ns) == FirstTruthy(h, n2) == Some(XRealIp);
    } else if Truthy(Get(h, TrueClientIp)) {
      assert FirstTruthy(h, ns) == FirstTruthy(h, n2) == FirstTruthy(h, n3) == Some(TrueClientIp);
    } else if Truthy(Get(h, FastlyClientIp)) {
      assert FirstTruthy(h, ns) == FirstTruthy(h, n2) == FirstTruthy(h, n4) == Some(FastlyClientIp);
    } else {
      assert FirstTruthy(h, ns) == FirstTruthy(h, n2) == FirstTruthy(h, n4) == FirstTruthy(h, n5);
    }
  }

  lemma BeforeCommaOf(x: string, rest: string)
    requires forall i :: 0 <= i < |x| ==> x[i] != ','
    ensures BeforeComma(x + "," + rest) == x
  {
    assert (x + "," + rest)[|x|] == ',';
  }

  /**
   * x-forwarded-for: the first comma-separated element with its white space
   * trimmed, even when that element is empty.
   */
  lemma XForwardedForFirstElement(h: Headers, pre: string, ip: string, post: string, rest: string)
    requires !Truthy(Get(h, CfConnectingIp))
    requires Spaces(pre) && Spaces(post) && Trimmed(ip)
    requires forall i :: 0 <= i < |ip| ==> ip[i] != ','
    requires XForwardedFor in h && h[XForwardedFor] == pre + ip + post + "," + rest
    ensures GetIp(h) == Some(ip)
  {
    var x := pre + ip + post;
    forall i | 0 <= i < |x| ensures x[i] != ',' {
      if i < |pre| {
        assert x[i] == pre[i];
      } else if i < |pre| + |ip| {
        assert x[i] == ip[i - |pre|];
      } else {
        assert x[i] == post[i - |pre| - |ip|];
      }
    }
    BeforeCommaOf(x, rest);
    TrimPadded(pre, ip, post);
  }

  /** Forwarded: the first `for=` value runs on past a comma. */
  lemma ForwardedCommaExample()
    ensures ForwardedFor("for=a,for=b") == Some("a,for=b")
  {
    assert "for=a,for=b"[0..4] == "for=";
    assert Run("for=a,for=b"[4..]) == "a,for=b";
  }

  /** Forwarded: the opening quote is skipped and the value ends at the closing one. */
  lemma ForwardedQuotedExample()
    ensures ForwardedFor("for=\"b\";x") == Some("b")
  {
    assert "for=\"b\";x"[0..4] == "for=";
    assert Run("for=\"b\";x"[5..]) == "b";
  }

  /** Forwarded: without `for=` there is no address. */
  lemma ForwardedWithoutFor()
    ensures ForwardedFor("by=c") == None
  {
    forall i | 0 <= i <= 4 ensures MatchAt("by=c", i).None? { }
  }
}
