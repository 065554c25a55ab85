/** The domain objects built from response bodies, and how the facade maps a
    status and a decoded body to them (pygett/base.py, lines 56-98). */
module Domain {
  import opened Values

  /** A `GettShare`: the fields of the response it was built from. */
  datatype Share = Share(fields: map<string, Value>)

  /** A `GettFile`: the fields of the response it was built from. */
  datatype File = File(fields: map<string, Value>)

  /** How a facade call ends: with a domain object, with Python's implicit
      `None`, or with an exception. */
  datatype Reply<+T> = Got(value: T) | Nothing | Raised(error: Error)

  /** `GettShare(self.user, **body)`: keyword unpacking needs a mapping. */
  function ShareOf(body: Value): (r: Result<Share, Error>)
    ensures r.Ok? <==> body.VDict?
    ensures r.Ok? ==> r.value.fields == body.fields
    ensures r.Err? ==> r.error == TypeError
  {
    if body.VDict? then Ok(Share(body.fields)) else Err(TypeError)
  }

  /** `GettFile(self.user, **body)`. */
  function FileOf(body: Value): (r: Result<File, Error>)
    ensures r.Ok? <==> body.VDict?
    ensures r.Ok? ==> r.value.fields == body.fields
    ensures r.Err? ==> r.error == TypeError
  {
    if body.VDict? then Ok(File(body.fields)) else Err(TypeError)
  }

  /** `get_share` and `create_share` after their one request: a share exactly
      on status 200, and `None` on any other status. */
  function ShareReply(status: int, body: Value): (r: Reply<Share>)
    ensures r.Nothing? <==> status != 200
    ensures r.Got? <==> status == 200 && body.VDict?
    ensures r.Got? ==> r.value.fields == body.fields
    ensures r.Raised? ==> r.error == TypeError
  {
    if status != 200 then Nothing
    else match ShareOf(body)
      case Ok(s) => Got(s)
      case Err(e) => Raised(e)
  }

  /** `get_file` after its one request. */
  function FileReply(status: int, body: Value): (r: Reply<File>)
    ensures r.Nothing? <==> status != 200
    ensures r.Got? <==> status == 200 && body.VDict?
    ensures r.Got? ==> r.value.fields == body.fields
    ensures r.Raised? ==> r.error == TypeError
  {
    if status != 200 then Nothing
    else match FileOf(body)
      case Ok(f) => Got(f)
      case Err(e) => Raised(e)
  }

  // ---------------------------------------------------------------------
  // Share listings

  /** What `for share in response.response` walks through. A list yields its
      entries. An empty string or dict yields nothing; a non-empty one yields
      strings, and both loops raise TypeError on a string. Anything else is
      not iterable. */
  function Entries(body: Value): (r: Result<seq<Value>, Error>)
    ensures body.VList? ==> r == Ok(body.items)
    ensures r.Ok? ==> body.VList? || r.value == []
    ensures r.Err? ==> r.error == TypeError
  {
    match body
    case VList(xs) => Ok(xs)
    case VStr(s) => if s == "" then Ok([]) else Err(TypeError)
    case VDict(m) => if m == map[] then Ok([]) else Err(TypeError)
    case _ => Err(TypeError)
  }

  /** `rv[share['sharename']] = GettShare(self.user, **share)` for one entry:
      the share is built first (a mapping is needed), then its `sharename`
      is read (KeyError without one) and used as a key (it must be hashable). */
  function NamedEntry(x: Value): (r: Result<(Value, Share), Error>)
    ensures r.Ok? <==> x.VDict? && "sharename" in x.fields && Hashable(x.fields["sharename"])
    ensures r.Ok? ==> r.value == (x.fields["sharename"], Share(x.fields))
  {
    if !x.VDict? then Err(TypeError)
    else if "sharename" !in x.fields then Err(KeyError("sharename"))
    else if !Hashable(x.fields["sharename"]) then Err(TypeError)
    else Ok((x.fields["sharename"], Share(x.fields)))
  }

  predicate WellNamed(x: Value) {
    NamedEntry(x).Ok?
  }

  function NameOf(x: Value): Value
    requires WellNamed(x)
  {
    x.fields["sharename"]
  }

  /** The dict `get_shares` has built after starting from `acc` and going through `xs`. */
  function ByNameFrom(acc: map<Value, Share>, xs: seq<Value>): Result<map<Value, Share>, Error>
    decreases |xs|
  {
    if xs == [] then Ok(acc)
    else match NamedEntry(xs[0])
      case Err(e) => Err(e)
      case Ok((k, s)) => ByNameFrom(acc[k := s], xs[1..])
  }

  /** The loop of `get_shares`. */
  method CollectShares(xs: seq<Value>) returns (r: Result<map<Value, Share>, Error>)
    ensures r == ByNameFrom(map[], xs)
  {
    var rv: map<Value, Share> := map[];
    var i := 0;
    while i < |xs|
      invariant 0 <= i <= |xs|
      invariant ByNameFrom(rv, xs[i..]) == ByNameFrom(map[], xs)
    {
      match NamedEntry(xs[i]) {
        case Err(e) =>
          return Err(e);
        case Ok((k, s)) =>
          assert xs[i..][1..] == xs[i + 1..];
          rv := rv[k := s];
      }
      i := i + 1;
    }
    return Ok(rv);
  }

  /** Entry `i` is the last one in `xs` with its name. */
  ghost predicate LastNamed(xs: seq<Value>, i: nat)
    requires i < |xs| && forall j :: 0 <= j < |xs| ==> WellNamed(xs[j])
  {
    forall j :: i < j < |xs| ==> NameOf(xs[j]) != NameOf(xs[i])
  }

  ghost function Names(xs: seq<Value>): set<Value>
    requires forall j :: 0 <= j < |xs| ==> WellNamed(xs[j])
  {
    set j | 0 <= j < |xs| :: NameOf(xs[j])
  }

  /** The dict law: when every entry is a mapping with a hashable name, the
      keys are the names seen, an entry wins over every earlier one with the
      same name, and keys no entry names keep their old share. */
  lemma {:induction false} ByNameLaw(acc: map<Value, Share>, xs: seq<Value>)
    requires forall j :: 0 <= j < |xs| ==> WellNamed(xs[j])
    ensures ByNameFrom(acc, xs).Ok?
    ensures ByNameFrom(acc, xs).value.Keys == acc.Keys + Names(xs)
    ensures forall k :: k in acc && k !in Names(xs) ==> ByNameFrom(acc, xs).value[k] == acc[k]
    ensures forall i :: 0 <= i < |xs| && LastNamed(xs, i) ==> ByNameFrom(acc, xs).value[NameOf(xs[i])] == Share(xs[i].fields)
    decreases |xs|
  {
    if xs != [] {
      var k, s := NameOf(xs[0]), Share(xs[0].fields);
      var rest := xs[1..];
      assert forall j :: 1 <= j < |xs| ==> xs[j] == rest[j - 1];
      ByNameLaw(acc[k := s], rest);
      assert Names(xs) == {k} + Names(rest) by {
        forall n | n in Names(xs) ensures n in {k} + Names(rest) {
          var j :| 0 <= j < |xs| && NameOf(xs[j]) == n;
          if j > 0 { assert NameOf(rest[j - 1]) == n; }
        }
        forall n | n in Names(rest) ensures n in Names(xs) {
          var j :| 0 <= j < |rest| && NameOf(rest[j]) == n;
          assert NameOf(xs[j + 1]) == n;
        }
      }
      var m := ByNameFrom(acc, xs).value;
      forall i | 0 <= i < |xs| && LastNamed(xs, i) ensures m[NameOf(xs[i])] == Share(xs[i].fields) {
        if i > 0 {
          assert LastNamed(rest, i - 1) by {
            forall j | i - 1 < j < |rest| ensures NameOf(rest[j]) != NameOf(rest[i - 1]) {
              assert rest[j] == xs[j + 1];
            }
          }
        }
      }
    }
  }

  /** The first entry that is not a well-named mapping decides the exception. */
  lemma {:induction false} ByNameFirstError(acc: map<Value, Share>, xs: seq<Value>, i: nat)
    requires i < |xs| && !WellNamed(xs[i])
    requires forall j :: 0 <= j < i ==> WellNamed(xs[j])
    ensures ByNameFrom(acc, xs) == Err(NamedEntry(xs[i]).error)
    decreases i
  {
    if i > 0 {
      var rest := xs[1..];
      assert forall j :: 0 <= j < i - 1 ==> rest[j] == xs[j + 1];
      ByNameFirstError(acc[NameOf(xs[0]) := Share(xs[0].fields)], rest, i - 1);
    }
  }

  /** The list `get_shares_list` has built after starting from `acc` and going through `xs`. */
  function InOrderFrom(acc: seq<Share>, xs: seq<Value>): Result<seq<Share>, Error>
    decreases |xs|
  {
    if xs == [] then Ok(acc)
    else match ShareOf(xs[0])
      case Err(e) => Err(e)
      case Ok(s) => InOrderFrom(acc + [s], xs[1..])
  }

  /** The loop of `get_shares_list`. */
  method ListShares(xs: seq<Value>) returns (r: Result<seq<Share>, Error>)
    ensures r == InOrderFrom([], xs)
  {
    var rv: seq<Share> := [];
    var i := 0;
    while i < |xs|
      invariant 0 <= i <= |xs|
      invariant InOrderFrom(rv, xs[i..]) == InOrderFrom([], xs)
    {
      match ShareOf(xs[i]) {
        case Err(e) =>
          return Err(e);
        case Ok(s) =>
          assert xs[i..][1..] == xs[i + 1..];
          rv := rv + [s];
      }
      i := i + 1;
    }
    return Ok(rv);
  }

  /** The list law: one share per entry, in the entries' order. */
  lemma {:induction false} InOrderLaw(acc: seq<Share>, xs: seq<Value>)
    requires forall j :: 0 <= j < |xs| ==> xs[j].VDict?
    ensures InOrderFrom(acc, xs).Ok?
    ensures |InOrderFrom(acc, xs).value| == |acc| + |xs|
    ensures InOrderFrom(acc, xs).value[..|acc|] == acc
    ensures forall j :: 0 <= j < |xs| ==> InOrderFrom(acc, xs).value[|acc| + j] == Share(xs[j].fields)
    decreases |xs|
  {
    if xs != [] {
      var rest := xs[1..];
      assert forall j :: 1 <= j < |xs| ==> xs[j] == rest[j - 1];
      var acc' := acc + [Share(xs[0].fields)];
      InOrderLaw(acc', rest);
      var r := InOrderFrom(acc, xs).value;
      assert r[..|acc'|] == acc';
      assert r[..|acc|] == acc'[..|acc|];
      forall j | 0 <= j < |xs| ensures r[|acc| + j] == Share(xs[j].fields) {
        if j == 0 {
          assert r[|acc|] == r[..|acc'|][|acc|];
        } else {
          assert r[|acc'| + (j - 1)] == Share(rest[j - 1].fields);
        }
      }
    }
  }

  /** The first entry that is not a mapping raises TypeError. */
  lemma {:induction false} InOrderFirstError(acc: seq<Share>, xs: seq<Value>, i: nat)
    requires i < |xs| && !xs[i].VDict?
    requires forall j :: 0 <= j < i ==> xs[j].VDict?
    ensures InOrderFrom(acc, xs) == Err(TypeError)
    decreases i
  {
    if i > 0 {
      var rest := xs[1..];
      assert forall j :: 0 <= j < i - 1 ==> rest[j] == xs[j + 1];
      InOrderFirstError(acc + [Share(xs[0].fields)], rest, i - 1);
    }
  }

  /** `get_shares` after its request: a dict on status 200, `None` otherwise. */
  function SharesMapReply(status: int, body: Value): (r: Reply<map<Value, Share>>)
    ensures r.Nothing? <==> status != 200
  {
    if status != 200 then Nothing
    else match Entries(body)
      case Err(e) => Raised(e)
      case Ok(xs) =>
        match ByNameFrom(map[], xs)
        case Ok(m) => Got(m)
        case Err(e) => Raised(e)
  }

  /** `get_shares_list` after its request: a list on status 200, `None` otherwise. */
  function SharesListReply(status: int, body: Value): (r: Reply<seq<Share>>)
    ensures r.Nothing? <==> status != 200
  {
    if status != 200 then Nothing
    else match Entries(body)
      case Err(e) => Raised(e)
      case Ok(xs) =>
        match InOrderFrom([], xs)
        case Ok(l) => Got(l)
        case Err(e) => Raised(e)
  }

  /** On status 200 with a list of well-named mappings, `get_shares` returns a
      dict whose keys are exactly the names listed, each naming the share of
      its last entry. */
  lemma SharesMapReplyLaw(xs: seq<Value>)
    requires forall j :: 0 <= j < |xs| ==> WellNamed(xs[j])
    ensures SharesMapReply(200, VList(xs)).Got?
    ensures SharesMapReply(200, VList(xs)).value.Keys == Names(xs)
    ensures forall i :: 0 <= i < |xs| && LastNamed(xs, i) ==>
      SharesMapReply(200, VList(xs)).value[NameOf(xs[i])] == Share(xs[i].fields)
  {
    ByNameLaw(map[], xs);
  }

  /** On status 200 with a list of mappings, `get_shares_list` returns one
      share per entry, in the same order. */
  lemma SharesListReplyLaw(xs: seq<Value>)
    requires forall j :: 0 <= j < |xs| ==> xs[j].VDict?
    ensures SharesListReply(200, VList(xs)).Got?
    ensures |SharesListReply(200, VList(xs)).value| == |xs|
    ensures forall j :: 0 <= j < |xs| ==> SharesListReply(200, VList(xs)).value[j] == Share(xs[j].fields)
  {
    InOrderLaw([], xs);
  }
}
