/** The request paths the client builds (pygett/base.py, lines 47-54, 79, 85,
    95 and 129), and a parser that reads the optional share-listing query back. */
module Endpoints {
  import opened Values
  import opened Numerals

  const SharesBase := "/shares?accesstoken="
  const LimitKey := "&limit="
  const SkipKey := "&skip="

  /** `'limit' in kwargs and isinstance(kwargs['limit'], int) and kwargs['limit'] > 0`,
      giving the number "%d" then writes. A `bool` is an `int` in Python, so
      `True` passes as 1; `None` here means the keyword was not passed. */
  function PositiveInt(v: Option<Value>): (n: Option<nat>)
    ensures n.Some? ==> n.value > 0
    ensures n.Some? <==> v == Some(VBool(true)) || (v.Some? && v.value.VInt? && v.value.i > 0)
    ensures v.Some? && v.value.VInt? && v.value.i > 0 ==> n == Some(v.value.i)
    ensures v == Some(VBool(true)) ==> n == Some(1)
  {
    match v
    case Some(VInt(i)) => if i > 0 then Some(i) else None
    case Some(VBool(true)) => Some(1)
    case _ => None
  }

  /** What `_get_shares` appends for a limit: `&limit=N`, or nothing. */
  function LimitPart(limit: Option<nat>): string {
    if limit.Some? then LimitKey + Decimal(limit.value) else ""
  }

  /** What `_get_shares` appends for a skip: `&skip=N`, or nothing. */
  function SkipPart(skip: Option<nat>): string {
    if skip.Some? then SkipKey + Decimal(skip.value) else ""
  }

  /** The tail `_get_shares` appends after the access token: limit first, then skip. */
  function QuerySuffix(limit: Option<nat>, skip: Option<nat>): string {
    LimitPart(limit) + SkipPart(skip)
  }

  /** The share-listing endpoint for the given access token and keyword values. */
  function SharesPath(token: string, limit: Option<Value>, skip: Option<Value>): string {
    SharesBase + token + QuerySuffix(PositiveInt(limit), PositiveInt(skip))
  }

  /** `Gett._get_shares`: the endpoint is built by appending to it. */
  method SharesEndpoint(token: string, limit: Option<Value>, skip: Option<Value>) returns (endpoint: string)
    ensures endpoint == SharesPath(token, limit, skip)
    ensures PositiveInt(limit).None? && PositiveInt(skip).None? ==> endpoint == SharesBase + token
  {
    ghost var head := SharesBase + token;
    endpoint := SharesBase + token;
    var l := PositiveInt(limit);
    if l.Some? {
      endpoint := endpoint + LimitPart(l);
    }
    assert endpoint == head + LimitPart(l);
    var s := PositiveInt(skip);
    if s.Some? {
      endpoint := endpoint + SkipPart(s);
    }
    AppendTwice(head, LimitPart(l), SkipPart(s));
  }

  /** Appending two parts in turn appends their concatenation. */
  lemma AppendTwice(head: string, a: string, b: string)
    ensures head + a + b == head + (a + b)
  {
  }

  /** How many digits `s` starts with. */
  function DigitRun(s: string): (n: nat)
    ensures n <= |s| && AllDigits(s[..n])
    ensures n < |s| ==> !IsDigit(s[n])
    decreases |s|
  {
    if s == [] || !IsDigit(s[0]) then 0
    else
      var n := 1 + DigitRun(s[1..]);
      assert s[..n] == [s[0]] + s[1..][..n - 1];
      n
  }

  /** Reads an optional `&skip=N` tail that must end the query. */
  function ParseSkip(q: string): Option<Option<nat>> {
    if q == "" then Some(None)
    else if |q| > |SkipKey| && q[..|SkipKey|] == SkipKey && AllDigits(q[|SkipKey|..])
    then Some(Some(ParseDecimal(q[|SkipKey|..])))
    else None
  }

  /** Reads a query tail `[&limit=N][&skip=M]` back into the two optional numbers. */
  function ParseQuery(q: string): Option<(Option<nat>, Option<nat>)> {
    if |q| >= |LimitKey| && q[..|LimitKey|] == LimitKey then
      var rest := q[|LimitKey|..];
      var n := DigitRun(rest);
      if n == 0 then None
      else
        match ParseSkip(rest[n..])
        case None => None
        case Some(sk) => Some((Some(ParseDecimal(rest[..n])), sk))
    else
      match ParseSkip(q)
      case None => None
      case Some(sk) => Some((None, sk))
  }

  lemma {:induction false} DigitRunStops(d: string, tail: string)
    requires AllDigits(d)
    requires tail == "" || !IsDigit(tail[0])
    ensures DigitRun(d + tail) == |d|
    decreases |d|
  {
    if d != [] {
      assert (d + tail)[1..] == d[1..] + tail;
      DigitRunStops(d[1..], tail);
    }
  }

  lemma SkipRoundTrip(skip: Option<nat>)
    ensures ParseSkip(SkipPart(skip)) == Some(skip)
  {
    if skip.Some? {
      var q := SkipPart(skip);
      assert q[..|SkipKey|] == SkipKey && q[|SkipKey|..] == Decimal(skip.value);
      ParseDecimalInverts(skip.value);
    }
  }

  /** After `&limit=`, a query is read as a run of digits and then the skip tail. */
  lemma ParseAfterLimitKey(rest: string)
    ensures ParseQuery(LimitKey + rest) ==
      var n := DigitRun(rest);
      if n == 0 then None
      else
        match ParseSkip(rest[n..])
        case None => None
        case Some(sk) => Some((Some(ParseDecimal(rest[..n])), sk))
  {
    var q := LimitKey + rest;
    assert q[..|LimitKey|] == LimitKey;
    assert q[|LimitKey|..] == rest;
  }

  /** After `&limit=` and a run of digits, the rest is read as the skip tail. */
  lemma ParseAfterLimit(d: string, tail: string)
    requires |d| > 0 && AllDigits(d)
    requires tail == "" || !IsDigit(tail[0])
    ensures ParseQuery(LimitKey + (d + tail)) ==
      match ParseSkip(tail)
      case None => None
      case Some(sk) => Some((Some(ParseDecimal(d)), sk))
  {
    ParseAfterLimitKey(d + tail);
    DigitRunStops(d, tail);
    assert (d + tail)[..|d|] == d && (d + tail)[|d|..] == tail;
  }

  /** A skip tail alone is not mistaken for a limit. */
  lemma ParseWithoutLimit(skip: Option<nat>)
    ensures ParseQuery(SkipPart(skip)) == Some((None, skip))
  {
    var q := SkipPart(skip);
    SkipRoundTrip(skip);
    if |q| >= |LimitKey| {
      assert q[1] == 's' && LimitKey[1] == 'l';
      assert q[..|LimitKey|] != LimitKey;
    }
  }

  /** The query tail determines the limit and skip that were rendered into
      it: `&limit=` is there exactly when a limit is, `&skip=` exactly when a
      skip is, limit comes first, and each carries its own number. */
  lemma QueryRoundTrip(limit: Option<nat>, skip: Option<nat>)
    ensures ParseQuery(QuerySuffix(limit, skip)) == Some((limit, skip))
  {
    if limit.Some? {
      var d := Decimal(limit.value);
      var sk := SkipPart(skip);
      assert QuerySuffix(limit, skip) == LimitKey + (d + sk);
      assert sk == "" || sk[0] == '&';
      ParseAfterLimit(d, sk);
      SkipRoundTrip(skip);
      ParseDecimalInverts(limit.value);
    } else {
      assert QuerySuffix(limit, skip) == SkipPart(skip);
      ParseWithoutLimit(skip);
    }
  }

  /** The listing endpoint always starts with the base and the token, ends in
      the query tail of the limit and skip that are positive integers, and is
      the bare base and token when neither is. */
  lemma SharesPathShape(token: string, limit: Option<Value>, skip: Option<Value>)
    ensures var p := SharesPath(token, limit, skip);
      var head := SharesBase + token;
      && |head| <= |p| && p[..|head|] == head
      && ParseQuery(p[|head|..]) == Some((PositiveInt(limit), PositiveInt(skip)))
      && (PositiveInt(limit).None? && PositiveInt(skip).None? ==> p == head)
  {
    var p := SharesPath(token, limit, skip);
    var head := SharesBase + token;
    assert p[..|head|] == head && p[|head|..] == QuerySuffix(PositiveInt(limit), PositiveInt(skip));
    QueryRoundTrip(PositiveInt(limit), PositiveInt(skip));
  }

  /** "%s" % v for the values the model renders. */
  function Render(v: Value): (r: Option<string>)
    ensures v.VStr? ==> r == Some(v.s)
    ensures r.None? <==> !Hashable(v)
  {
    match v
    case VStr(s) => Some(s)
    case VInt(i) => Some(SignedDecimal(i))
    case VBool(b) => Some(if b then "True" else "False")
    case VNone => Some("None")
    case _ => None
  }

  /** The integer "%d" takes from a value (a bool is 0 or 1); the rest raise TypeError. */
  function IntOf(v: Value): Option<int> {
    match v
    case VInt(i) => Some(i)
    case VBool(b) => Some(if b then 1 else 0)
    case _ => None
  }

  function SharePath(sharename: string): string {
    "/shares/" + sharename
  }

  function CreateSharePath(token: string): string {
    "/shares/create?accesstoken=" + token
  }

  function UploadPath(sharename: string, token: string): string {
    "/files/" + sharename + "/create?accesstoken=" + token
  }

  /** `"/files/%s/%d" % (sharename, fileid)`. */
  function FilePath(sharename: string, fileid: Value): (r: Result<string, Error>)
    ensures r.Err? <==> IntOf(fileid).None?
    ensures r.Err? ==> r.error == TypeError
  {
    match IntOf(fileid)
    case None => Err(TypeError)
    case Some(i) => Ok("/files/" + sharename + "/" + SignedDecimal(i))
  }

  /** A file path names its share and ends in a numeral that reads back as the file id. */
  lemma FilePathShape(sharename: string, fileid: Value)
    requires IntOf(fileid).Some?
    ensures var p := FilePath(sharename, fileid).value;
      var head := "/files/" + sharename + "/";
      && |head| < |p| && p[..|head|] == head
      && SignedNumeral(p[|head|..]) && ParseSigned(p[|head|..]) == IntOf(fileid).value
  {
    var p := FilePath(sharename, fileid).value;
    var head := "/files/" + sharename + "/";
    var i := IntOf(fileid).value;
    assert p == head + SignedDecimal(i);
    assert p[..|head|] == head && p[|head|..] == SignedDecimal(i);
    SignedRoundTrip(i);
  }
}
