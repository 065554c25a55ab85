/** Validation of the keyword arguments of the `Gett` constructor
    (pygett/base.py, lines 16-45). */
module Credentials {
  import opened Values

  /** Keyword arguments in the order `kwargs.items()` yields them. */
  type Kwargs = seq<(string, Value)>

  /** `self.required_params`, checked in this order. */
  const Required: seq<string> := ["apikey", "email", "password"]

  predicate HasKey(kw: Kwargs, k: string) {
    exists i :: 0 <= i < |kw| && kw[i].0 == k
  }

  /** `kwargs[k]`: the value passed for keyword `k`. */
  function Lookup(kw: Kwargs, k: string): (r: Option<Value>)
    ensures r.Some? <==> HasKey(kw, k)
    ensures r.Some? ==> exists i :: 0 <= i < |kw| && kw[i] == (k, r.value)
  {
    if kw == [] then None
    else if kw[0].0 == k then Some(kw[0].1)
    else
      var r := Lookup(kw[1..], k);
      assert r.Some? ==> exists i :: 0 <= i < |kw[1..]| && kw[1..][i] == (k, r.value);
      assert HasKey(kw[1..], k) ==> HasKey(kw, k);
      assert HasKey(kw, k) ==> HasKey(kw[1..], k) by {
        if HasKey(kw, k) {
          var i :| 0 <= i < |kw| && kw[i].0 == k;
          assert kw[1..][i - 1].0 == k;
        }
      }
      r
  }

  // ---------------------------------------------------------------------
  // The email pattern: re.search(r'\w+@\w+', email), with \w the ASCII
  // word characters (no UNICODE flag in Python 2).

  predicate IsWordChar(c: char) {
    ('a' <= c <= 'z') || ('A' <= c <= 'Z') || ('0' <= c <= '9') || c == '_'
  }

  /** The check as a left-to-right scan for word character, '@', word character. */
  predicate EmailLike(s: string)
    decreases |s|
  {
    |s| >= 3 && ((IsWordChar(s[0]) && s[1] == '@' && IsWordChar(s[2])) || EmailLike(s[1..]))
  }

  ghost predicate AllWord(t: string) {
    forall i :: 0 <= i < |t| ==> IsWordChar(t[i])
  }

  /** `t` is matched in full by \w+@\w+. */
  ghost predicate PatternMatches(t: string) {
    exists k :: 0 < k < |t| - 1 && t[k] == '@' && AllWord(t[..k]) && AllWord(t[k + 1..])
  }

  /** re.search succeeds: some substring of `s` is matched in full. */
  ghost predicate PatternFound(s: string) {
    exists i, j :: 0 <= i <= j <= |s| && PatternMatches(s[i..j])
  }

  /** Some '@' past the first position has a word character on each side. */
  ghost predicate AtBetweenWords(s: string) {
    exists i :: 0 < i < |s| - 1 && s[i] == '@' && IsWordChar(s[i - 1]) && IsWordChar(s[i + 1])
  }

  lemma {:induction false} EmailLikeIsLocal(s: string)
    ensures EmailLike(s) <==> AtBetweenWords(s)
    decreases |s|
  {
    if |s| >= 3 {
      EmailLikeIsLocal(s[1..]);
      if AtBetweenWords(s[1..]) {
        var i :| 0 < i < |s[1..]| - 1 && s[1..][i] == '@' && IsWordChar(s[1..][i - 1]) && IsWordChar(s[1..][i + 1]);
        assert s[i + 1] == '@' && IsWordChar(s[i]) && IsWordChar(s[i + 2]);
      }
      if AtBetweenWords(s) {
        var i :| 0 < i < |s| - 1 && s[i] == '@' && IsWordChar(s[i - 1]) && IsWordChar(s[i + 1]);
        if i > 1 {
          assert s[1..][i - 1] == '@' && IsWordChar(s[1..][i - 2]) && IsWordChar(s[1..][i]);
        }
      }
    }
  }

  lemma LocalIsSearch(s: string)
    ensures AtBetweenWords(s) <==> PatternFound(s)
  {
    if AtBetweenWords(s) {
      var i :| 0 < i < |s| - 1 && s[i] == '@' && IsWordChar(s[i - 1]) && IsWordChar(s[i + 1]);
      var t := s[i - 1..i + 2];
      assert t[1] == '@' && AllWord(t[..1]) && AllWord(t[2..]);
      assert PatternMatches(t);
    }
    if PatternFound(s) {
      var i, j :| 0 <= i <= j <= |s| && PatternMatches(s[i..j]);
      var t := s[i..j];
      var k :| 0 < k < |t| - 1 && t[k] == '@' && AllWord(t[..k]) && AllWord(t[k + 1..]);
      assert t[..k][k - 1] == s[i + k - 1] && t[k + 1..][0] == s[i + k + 1];
      assert s[i + k] == '@';
    }
  }

  /** The scan accepts an email exactly when the regular expression search finds a match. */
  lemma EmailLikeIsSearch(s: string)
    ensures EmailLike(s) <==> PatternFound(s)
  {
    EmailLikeIsLocal(s);
    LocalIsSearch(s);
  }

  // ---------------------------------------------------------------------
  // _check_params

  /** What `_check_params` demands of one supplied argument, stated as a whole. */
  predicate Acceptable(k: string, v: Value) {
    && Truthy(v)
    && (k == "apikey" ==> v.VStr?)
    && (k == "email" ==> v.VStr? && EmailLike(v.s))
    && (k == "password" ==> v.VStr?)
  }

  /** The exception the loop body raises for one argument, checked in the source's order. */
  function ArgumentFault(k: string, v: Value): (r: Option<Error>)
    ensures r.None? <==> Acceptable(k, v)
  {
    if !Truthy(v) then Some(FalsyParam(k))
    else if k == "apikey" && !v.VStr? then Some(NotAString(k))
    else if k == "email" && !v.VStr? then Some(EmailNotText)
    else if k == "email" && !EmailLike(v.s) then Some(NotAnEmail)
    else if k == "password" && !v.VStr? then Some(NotAString(k))
    else None
  }

  /** The first required name, in `req`'s order, that was not passed. */
  function FirstMissing(req: seq<string>, kw: Kwargs): (r: Option<string>)
    ensures r.Some? ==> r.value in req && !HasKey(kw, r.value)
    ensures r.None? <==> forall j :: 0 <= j < |req| ==> HasKey(kw, req[j])
    decreases |req|
  {
    if req == [] then None
    else if !HasKey(kw, req[0]) then Some(req[0])
    else
      var r := FirstMissing(req[1..], kw);
      assert forall j :: 1 <= j < |req| ==> req[j] == req[1..][j - 1];
      r
  }

  /** The exception for the first argument, in iteration order, that fails its check. */
  function FirstBadValue(kw: Kwargs): (r: Option<Error>)
    ensures r.None? <==> forall i :: 0 <= i < |kw| ==> Acceptable(kw[i].0, kw[i].1)
    decreases |kw|
  {
    if kw == [] then None
    else
      match ArgumentFault(kw[0].0, kw[0].1)
      case Some(e) => Some(e)
      case None =>
        var r := FirstBadValue(kw[1..]);
        assert forall i :: 1 <= i < |kw| ==> kw[i] == kw[1..][i - 1];
        r
  }

  /** Every argument passes, all three credentials are there, and there are arguments at all. */
  ghost predicate Accepted(kw: Kwargs) {
    && kw != []
    && HasKey(kw, "apikey") && HasKey(kw, "email") && HasKey(kw, "password")
    && forall i :: 0 <= i < |kw| ==> Acceptable(kw[i].0, kw[i].1)
  }

  /** The exception `_check_params` raises, if any. */
  function ParamsError(kw: Kwargs): (r: Option<Error>)
    ensures r.None? <==> Accepted(kw)
    ensures kw == [] ==> r == Some(MissingParams)
  {
    if kw == [] then Some(MissingParams)
    else
      match FirstMissing(Required, kw)
      case Some(p) => Some(MissingParam(p))
      case None =>
        assert Required[0] == "apikey" && Required[1] == "email" && Required[2] == "password";
        FirstBadValue(kw)
  }

  /** `Gett._check_params`: the required names first, then every argument, raising at the first fault. */
  method CheckParams(kw: Kwargs) returns (err: Option<Error>)
    ensures err == ParamsError(kw)
  {
    if |kw| == 0 {
      return Some(MissingParams);
    }
    var j := 0;
    while j < |Required|
      invariant 0 <= j <= |Required|
      invariant FirstMissing(Required[j..], kw) == FirstMissing(Required, kw)
    {
      if !HasKey(kw, Required[j]) {
        return Some(MissingParam(Required[j]));
      }
      assert Required[j..][1..] == Required[j + 1..];
      j := j + 1;
    }
    var i := 0;
    while i < |kw|
      invariant 0 <= i <= |kw|
      invariant FirstBadValue(kw[i..]) == FirstBadValue(kw)
    {
      var (k, v) := kw[i];
      if !Truthy(v) {
        return Some(FalsyParam(k));
      }
      if k == "apikey" && !v.VStr? {
        return Some(NotAString(k));
      }
      if k == "email" {
        if !v.VStr? {
          return Some(EmailNotText);
        }
        if !EmailLike(v.s) {
          return Some(NotAnEmail);
        }
      }
      if k == "password" && !v.VStr? {
        return Some(NotAString(k));
      }
      assert kw[i..][1..] == kw[i + 1..];
      i := i + 1;
    }
    return None;
  }

  /** What an exception says about the arguments: it names what is wrong. */
  ghost predicate Blames(kw: Kwargs, e: Error) {
    match e
    case MissingParams => kw == []
    case MissingParam(p) => kw != [] && p in Required && !HasKey(kw, p)
    case FalsyParam(k) => exists i :: 0 <= i < |kw| && kw[i].0 == k && !Truthy(kw[i].1)
    case NotAString(k) =>
      (k == "apikey" || k == "password")
      && exists i :: 0 <= i < |kw| && kw[i].0 == k && Truthy(kw[i].1) && !kw[i].1.VStr?
    case EmailNotText =>
      exists i :: 0 <= i < |kw| && kw[i].0 == "email" && Truthy(kw[i].1) && !kw[i].1.VStr?
    case NotAnEmail =>
      exists i :: 0 <= i < |kw| && kw[i].0 == "email" && kw[i].1.VStr? && !EmailLike(kw[i].1.s)
    case _ => false
  }

  lemma {:induction false} FirstBadValueBlames(kw: Kwargs)
    ensures FirstBadValue(kw).Some? ==> Blames(kw, FirstBadValue(kw).value)
    ensures FirstBadValue(kw).Some? ==> !FirstBadValue(kw).value.MissingParams? && !FirstBadValue(kw).value.MissingParam?
    decreases |kw|
  {
    if kw != [] && ArgumentFault(kw[0].0, kw[0].1).None? {
      FirstBadValueBlames(kw[1..]);
      if FirstBadValue(kw).Some? {
        var e := FirstBadValue(kw).value;
        assert forall i :: 1 <= i < |kw| ==> kw[i] == kw[1..][i - 1];
        match e
        case FalsyParam(k) =>
          var i :| 0 <= i < |kw[1..]| && kw[1..][i].0 == k && !Truthy(kw[1..][i].1);
          assert kw[i + 1] == kw[1..][i];
        case NotAString(k) =>
          var i :| 0 <= i < |kw[1..]| && kw[1..][i].0 == k && Truthy(kw[1..][i].1) && !kw[1..][i].1.VStr?;
          assert kw[i + 1] == kw[1..][i];
        case EmailNotText =>
          var i :| 0 <= i < |kw[1..]| && kw[1..][i].0 == "email" && Truthy(kw[1..][i].1) && !kw[1..][i].1.VStr?;
          assert kw[i + 1] == kw[1..][i];
        case NotAnEmail =>
          var i :| 0 <= i < |kw[1..]| && kw[1..][i].0 == "email" && kw[1..][i].1.VStr? && !EmailLike(kw[1..][i].1.s);
          assert kw[i + 1] == kw[1..][i];
        case _ =>
      }
    }
  }

  /** Every rejection names its cause: no arguments at all, a required
      credential that is missing, or a supplied argument that is falsy, of the
      wrong type, or not an email. */
  lemma ParamsErrorBlames(kw: Kwargs)
    ensures ParamsError(kw).Some? ==> Blames(kw, ParamsError(kw).value)
  {
    FirstBadValueBlames(kw);
  }

  /** A required credential that is missing is reported before any value is looked at. */
  lemma MissingRequiredReported(kw: Kwargs, p: string)
    requires p in Required && !HasKey(kw, p)
    ensures ParamsError(kw) == Some(MissingParams)
         || exists q :: q in Required && !HasKey(kw, q) && ParamsError(kw) == Some(MissingParam(q))
  {
    if kw != [] {
      assert FirstMissing(Required, kw).Some?;
    }
  }

  /** A falsy value is rejected whatever its keyword, required or not. */
  lemma FalsyRejected(kw: Kwargs, i: nat)
    requires i < |kw| && !Truthy(kw[i].1)
    ensures ParamsError(kw).Some?
  {
    assert !Acceptable(kw[i].0, kw[i].1);
  }

  /** The user record `GettUser(apikey, email, password)` is built from. */
  datatype Creds = Creds(apikey: string, email: string, password: string)

  /** `Gett.__init__` up to the user: validation, then the three credentials. */
  function Authenticate(kw: Kwargs): (r: Result<Creds, Error>)
    ensures r.Ok? <==> Accepted(kw)
    ensures r.Err? ==> Some(r.error) == ParamsError(kw)
    ensures r.Ok? ==> && Lookup(kw, "apikey") == Some(VStr(r.value.apikey))
                      && Lookup(kw, "email") == Some(VStr(r.value.email))
                      && Lookup(kw, "password") == Some(VStr(r.value.password))
                      && EmailLike(r.value.email)
  {
    match ParamsError(kw)
    case Some(e) => Err(e)
    case None =>
      var a := Lookup(kw, "apikey").value;
      var e := Lookup(kw, "email").value;
      var p := Lookup(kw, "password").value;
      assert Acceptable("apikey", a) && Acceptable("email", e) && Acceptable("password", p);
      Ok(Creds(a.s, e.s, p.s))
  }
}
