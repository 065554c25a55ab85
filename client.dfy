/** The `Gett` facade (pygett/base.py, lines 15-137): share listing, share and
    file lookup, share creation and the upload pipeline, over a transport. */
module Client {
  import opened Values
  import opened Endpoints
  import opened Domain
  import opened Http
  import opened Credentials

  /** The keyword arguments of `upload_file`; `None` means the keyword was not passed. */
  datatype UploadArgs = UploadArgs(
    filename: Option<Value>,
    data: Option<Value>,
    sharename: Option<string>,
    title: Option<Value>)

  /** How a multi-call operation ended, and the calls it made, oldest first. */
  datatype Run<+T> = Run(reply: Reply<T>, calls: seq<Call>)

  /** The `params` of `create_share`: `{"title": t}` when a title was passed, `None` otherwise. */
  function TitleParams(title: Option<Value>): (p: Option<map<string, Value>>)
    ensures p.Some? <==> title.Some?
    ensures p.Some? ==> p.value.Keys == {"title"} && p.value["title"] == title.value
  {
    if title.Some? then Some(map["title" := title.value]) else None
  }

  /** The `params` of the file registration. */
  function FilenameParams(filename: Value): Option<map<string, Value>> {
    Some(map["filename" := filename])
  }

  /** `share.sharename` for what `create_share` returned: on `None` the
      attribute read raises, and so does a share built without that field. */
  function SharenameOf(r: Reply<Share>): (n: Result<Value, Error>)
    ensures n.Ok? <==> r.Got? && "sharename" in r.value.fields
    ensures n.Ok? ==> n.value == r.value.fields["sharename"]
    ensures r.Nothing? ==> n == Err(AttributeError("sharename"))
    ensures r.Raised? ==> n == Err(r.error)
  {
    match r
    case Got(s) => if "sharename" in s.fields then Ok(s.fields["sharename"]) else Err(AttributeError("sharename"))
    case Nothing => Err(AttributeError("sharename"))
    case Raised(e) => Err(e)
  }

  /** Lines 132-135: a registration answered 200 becomes a file; its body must
      be a mapping, and the resolved share name fills in a missing `sharename`. */
  function RegisteredFile(body: Value, name: Value): (r: Result<File, Error>)
    ensures r.Ok? <==> body.VDict?
    ensures r.Err? ==> r.error == TypeError
    ensures r.Ok? ==> r.value.fields.Keys == body.fields.Keys + {"sharename"}
    ensures r.Ok? ==>
      r.value.fields["sharename"] == (if "sharename" in body.fields then body.fields["sharename"] else name)
    ensures r.Ok? ==> forall k :: k in body.fields && k != "sharename" ==> r.value.fields[k] == body.fields[k]
  {
    if !body.VDict? then Err(TypeError)
    else if "sharename" in body.fields then Ok(File(body.fields))
    else Ok(File(body.fields["sharename" := name]))
  }

  /** Phase one of the upload: the share name passed, or the name of a share
      created for the purpose; with the calls this made. */
  function ResolveShare(sharename: Option<string>, title: Option<Value>, token: string,
                        server: Server, history: seq<Call>): (r: (Result<Value, Error>, seq<Call>))
    ensures sharename.Some? ==> r == (Ok(VStr(sharename.value)), [])
    ensures sharename.None? ==> r.1 == [Post(CreateSharePath(token), TitleParams(title))]
    ensures sharename.None? && server.answer(history + r.1).status != 200 ==> r.0 == Err(AttributeError("sharename"))
    ensures sharename.None? ==>
      r.0 == SharenameOf(ShareReply(server.answer(history + r.1).status, server.answer(history + r.1).body))
  {
    if sharename.Some? then (Ok(VStr(sharename.value)), [])
    else
      var create := Post(CreateSharePath(token), TitleParams(title));
      var resp := server.answer(history + [create]);
      (SharenameOf(ShareReply(resp.status, resp.body)), [create])
  }

  /** Phases two and three: register the file under the resolved name, then
      send its bytes. Only a 200 registration with a mapping body is followed
      by the transfer; the file is returned iff the transfer is accepted, and
      a refused registration or transfer ends in `None`, not an exception. */
  function Register(name: Value, filename: Value, data: Value, token: string,
                    server: Server, history: seq<Call>): (run: Run<File>)
    ensures |run.calls| <= 2
    ensures run.reply.Got? ==>
      && |run.calls| == 2
      && run.calls[1] == SendData(run.reply.value, data)
      && server.accepts(history + run.calls)
      && server.answer(history + run.calls[..1]).status == 200
    ensures Render(name).None? ==> run == Run(Raised(Unrendered), [])
    ensures Render(name).Some? ==>
      var post := Post(UploadPath(Render(name).value, token), FilenameParams(filename));
      var resp := server.answer(history + [post]);
      && 1 <= |run.calls| && run.calls[0] == post
      && (resp.status != 200 ==> run == Run(Nothing, [post]))
      && (resp.status == 200 && !resp.body.VDict? ==> run == Run(Raised(TypeError), [post]))
      && (resp.status == 200 && resp.body.VDict? ==>
            var f := RegisteredFile(resp.body, name).value;
            && run.calls == [post, SendData(f, data)]
            && (run.reply == Got(f) <==> server.accepts(history + run.calls))
            && (!server.accepts(history + run.calls) ==> run.reply == Nothing))
  {
    match Render(name)
    case None => Run(Raised(Unrendered), [])
    case Some(text) =>
      var post := Post(UploadPath(text, token), FilenameParams(filename));
      var resp := server.answer(history + [post]);
      if resp.status != 200 then Run(Nothing, [post])
      else
        match RegisteredFile(resp.body, name)
        case Err(e) => Run(Raised(e), [post])
        case Ok(f) =>
          var send := SendData(f, data);
          assert [post, send][..1] == [post];
          Run(if server.accepts(history + [post, send]) then Got(f) else Nothing, [post, send])
  }

  /** `upload_file` as a pipeline: argument checks, share resolution, file
      registration, byte transfer; a failing phase ends it. */
  function Upload(u: UploadArgs, token: string, server: Server, history: seq<Call>): (run: Run<File>)
    ensures u.filename.None? ==> run == Run(Raised(MissingArgument("filename")), [])
    ensures u.filename.Some? && u.data.None? ==> run == Run(Raised(MissingArgument("data")), [])
    ensures |run.calls| <= 3
    ensures run.reply.Got? ==>
      && |run.calls| >= 2
      && run.calls[|run.calls| - 1] == SendData(run.reply.value, u.data.value)
      && server.accepts(history + run.calls)
      && server.answer(history + run.calls[..|run.calls| - 1]).status == 200
  {
    if u.filename.None? then Run(Raised(MissingArgument("filename")), [])
    else if u.data.None? then Run(Raised(MissingArgument("data")), [])
    else
      var (name, made) := ResolveShare(u.sharename, u.title, token, server, history);
      match name
      case Err(e) => Run(Raised(e), made)
      case Ok(n) =>
        var reg := Register(n, u.filename.value, u.data.value, token, server, history + made);
        assert history + made + reg.calls == history + (made + reg.calls);
        assert reg.reply.Got? ==> history + (made + reg.calls)[..|made + reg.calls| - 1] == history + made + reg.calls[..1];
        Run(reg.reply, made + reg.calls)
  }

  /** How an upload with both arguments ends, phase by phase, with its exact
      calls: a failed resolution raises after the creation call, if any; a
      registration answered other than 200 gives `None`; a 200 registration
      with a non-mapping body raises `TypeError`; a 200 mapping is followed by
      the transfer of the registered file, which is returned iff the transfer
      is accepted and otherwise gives `None`. */
  lemma UploadOutcome(u: UploadArgs, token: string, server: Server, history: seq<Call>)
    requires u.filename.Some? && u.data.Some?
    ensures var rs := ResolveShare(u.sharename, u.title, token, server, history);
      var name := rs.0;
      var made := rs.1;
      var run := Upload(u, token, server, history);
      && |made| == (if u.sharename.None? then 1 else 0)
      && (name.Err? ==> run == Run(Raised(name.error), made))
      && (name.Ok? && Render(name.value).None? ==> run == Run(Raised(Unrendered), made))
      && (name.Ok? && Render(name.value).Some? ==>
            var post := Post(UploadPath(Render(name.value).value, token), FilenameParams(u.filename.value));
            var resp := server.answer(history + made + [post]);
            && (resp.status != 200 ==> run == Run(Nothing, made + [post]))
            && (resp.status == 200 && !resp.body.VDict? ==> run == Run(Raised(TypeError), made + [post]))
            && (resp.status == 200 && resp.body.VDict? ==>
                  var f := RegisteredFile(resp.body, name.value).value;
                  && run.calls == made + [post, SendData(f, u.data.value)]
                  && (run.reply == Got(f) <==> server.accepts(history + run.calls))
                  && (!server.accepts(history + run.calls) ==> run.reply == Nothing)))
  {
    var rs := ResolveShare(u.sharename, u.title, token, server, history);
    if rs.0.Ok? && Render(rs.0.value).Some? {
      var reg := Register(rs.0.value, u.filename.value, u.data.value, token, server, history + rs.1);
      assert history + rs.1 + reg.calls == history + (rs.1 + reg.calls);
    }
  }

  /** True of a call that creates a share. */
  predicate CreatesShare(c: Call, token: string) {
    c.Post? && c.path == CreateSharePath(token)
  }

  /** With a share name passed, no share is created: the registration under
      that name is the first call, and only the byte transfer may follow. */
  lemma UploadIntoNamedShare(u: UploadArgs, token: string, server: Server, history: seq<Call>)
    requires u.filename.Some? && u.data.Some? && u.sharename.Some?
    ensures var run := Upload(u, token, server, history);
      && 1 <= |run.calls| <= 2
      && run.calls[0] == Post(UploadPath(u.sharename.value, token), FilenameParams(u.filename.value))
      && (|run.calls| == 2 ==> run.calls[1].SendData?)
      && forall i :: 0 <= i < |run.calls| ==> !CreatesShare(run.calls[i], token)
  {
    var run := Upload(u, token, server, history);
    assert UploadPath(u.sharename.value, token)[1] == 'f';
    assert CreateSharePath(token)[1] == 's';
  }

  /** Without a share name, exactly one share creation (titled exactly when a
      title was passed) comes first. If it yields no share name, in particular
      when its status is not 200, the upload raises and sends nothing more;
      otherwise the registration under the new name comes next. */
  lemma UploadCreatesShareFirst(u: UploadArgs, token: string, server: Server, history: seq<Call>)
    requires u.filename.Some? && u.data.Some? && u.sharename.None?
    ensures var run := Upload(u, token, server, history);
      var create := Post(CreateSharePath(token), TitleParams(u.title));
      var resp := server.answer(history + [create]);
      var name := SharenameOf(ShareReply(resp.status, resp.body));
      && 1 <= |run.calls| && run.calls[0] == create
      && (forall i :: 1 <= i < |run.calls| ==> !CreatesShare(run.calls[i], token))
      && (resp.status != 200 ==> run == Run(Raised(AttributeError("sharename")), [create]))
      && (name.Err? ==> run == Run(Raised(name.error), [create]))
      && (name.Ok? && Render(name.value).Some? ==>
            |run.calls| >= 2
            && run.calls[1] == Post(UploadPath(Render(name.value).value, token), FilenameParams(u.filename.value)))
  {
    var run := Upload(u, token, server, history);
    forall i | 1 <= i < |run.calls| ensures !CreatesShare(run.calls[i], token) {
      if run.calls[i].Post? {
        var text := Render(SharenameOf(ShareReply(server.answer(history + [run.calls[0]]).status,
                                                  server.answer(history + [run.calls[0]]).body)).value).value;
        assert run.calls[i] == Post(UploadPath(text, token), FilenameParams(u.filename.value));
        assert UploadPath(text, token)[1] == 'f';
        assert CreateSharePath(token)[1] == 's';
      }
    }
  }

  /** A file is returned only after a registration answered 200 and an
      accepted byte transfer of that very file; it carries the share name the
      body gave, or else the resolved one. */
  lemma UploadReturnsRegisteredFile(u: UploadArgs, token: string, server: Server, history: seq<Call>)
    requires Upload(u, token, server, history).reply.Got?
    ensures var run := Upload(u, token, server, history);
      var f := run.reply.value;
      var n := |run.calls|;
      var regCall := run.calls[n - 2];
      var resp := server.answer(history + run.calls[..n - 1]);
      && regCall.Post? && regCall.params == FilenameParams(u.filename.value)
      && resp.status == 200 && resp.body.VDict?
      && run.calls[n - 1] == SendData(f, u.data.value)
      && server.accepts(history + run.calls)
      && "sharename" in f.fields
      && ("sharename" in resp.body.fields ==> f.fields["sharename"] == resp.body.fields["sharename"])
      && ("sharename" !in resp.body.fields && u.sharename.Some? ==> f.fields["sharename"] == VStr(u.sharename.value))
  {
    var run := Upload(u, token, server, history);
    var (name, made) := ResolveShare(u.sharename, u.title, token, server, history);
    var reg := Register(name.value, u.filename.value, u.data.value, token, server, history + made);
    assert run.calls == made + reg.calls;
    assert history + run.calls[..|run.calls| - 1] == history + made + [reg.calls[0]];
  }

  /** A file returned into a share created for it, whose registration body
      named no share, carries the name of the share the creation call returned. */
  lemma UploadNamesCreatedShare(u: UploadArgs, token: string, server: Server, history: seq<Call>)
    requires u.sharename.None? && Upload(u, token, server, history).reply.Got?
    ensures var run := Upload(u, token, server, history);
      var resp := server.answer(history + run.calls[..|run.calls| - 1]);
      var created := server.answer(history + [Post(CreateSharePath(token), TitleParams(u.title))]);
      resp.body.VDict? && "sharename" !in resp.body.fields ==>
        SharenameOf(ShareReply(created.status, created.body)) == Ok(run.reply.value.fields["sharename"])
  {
    var run := Upload(u, token, server, history);
    var (name, made) := ResolveShare(u.sharename, u.title, token, server, history);
    var reg := Register(name.value, u.filename.value, u.data.value, token, server, history + made);
    assert run.calls == made + reg.calls;
    assert history + run.calls[..|run.calls| - 1] == history + made + [reg.calls[0]];
  }

  /** The facade. */
  class Gett {
    /** The validated credentials `GettUser` is built from. */
    const user: Creds
    /** `self.user.access_token()`, obtained by an authentication call outside this model. */
    const token: string
    const net: Transport

    /** Holds the given user, token and transport; `Connect` builds it from validated arguments. */
    constructor (user: Creds, token: string, net: Transport)
      ensures this.user == user && this.token == token && this.net == net
    {
      this.user := user;
      this.token := token;
      this.net := net;
    }

    /** `Gett(**kwargs)`: `_check_params` first, raising its error, and only
        then the user built from the three credentials. */
    static method Connect(kw: Kwargs, token: string, net: Transport) returns (r: Result<Gett, Error>)
      ensures r.Ok? <==> Accepted(kw)
      ensures r.Err? ==> Some(r.error) == ParamsError(kw)
      ensures r.Ok? ==> && fresh(r.value) && r.value.user == Authenticate(kw).value
                        && r.value.token == token && r.value.net == net
    {
      var err := CheckParams(kw);
      if err.Some? {
        return Err(err.value);
      }
      var g := new Gett(Authenticate(kw).value, token, net);
      return Ok(g);
    }

    /** `get_shares`: one GET of the listing, then a dict keyed by share name. */
    method GetShares(limit: Option<Value>, skip: Option<Value>) returns (r: Reply<map<Value, Share>>)
      modifies net
      ensures net.log == old(net.log) + [Call.Get(SharesPath(token, limit, skip))]
      ensures r == SharesMapReply(net.server.answer(net.log).status, net.server.answer(net.log).body)
    {
      var endpoint := SharesEndpoint(token, limit, skip);
      var response := net.Get(endpoint);
      r := Nothing;
      if response.status == 200 {
        match Entries(response.body) {
          case Err(e) =>
            r := Raised(e);
          case Ok(xs) =>
            var rv := CollectShares(xs);
            r := match rv case Ok(m) => Got(m) case Err(e) => Raised(e);
        }
      }
    }

    /** `get_shares_list`: one GET of the listing, then a list in the listing's order. */
    method GetSharesList(limit: Option<Value>, skip: Option<Value>) returns (r: Reply<seq<Share>>)
      modifies net
      ensures net.log == old(net.log) + [Call.Get(SharesPath(token, limit, skip))]
      ensures r == SharesListReply(net.server.answer(net.log).status, net.server.answer(net.log).body)
    {
      var endpoint := SharesEndpoint(token, limit, skip);
      var response := net.Get(endpoint);
      r := Nothing;
      if response.status == 200 {
        match Entries(response.body) {
          case Err(e) =>
            r := Raised(e);
          case Ok(xs) =>
            var rv := ListShares(xs);
            r := match rv case Ok(l) => Got(l) case Err(e) => Raised(e);
        }
      }
    }

    /** `get_share`: one GET, a share iff the status is 200. */
    method GetShare(sharename: string) returns (r: Reply<Share>)
      modifies net
      ensures net.log == old(net.log) + [Call.Get(SharePath(sharename))]
      ensures r == ShareReply(net.server.answer(net.log).status, net.server.answer(net.log).body)
    {
      var response := net.Get(SharePath(sharename));
      r := ShareReply(response.status, response.body);
    }

    /** `get_file`: a file id "%d" cannot render raises before any request;
        otherwise one GET, a file iff the status is 200. */
    method GetFile(sharename: string, fileid: Value) returns (r: Reply<File>)
      modifies net
      ensures FilePath(sharename, fileid).Err? ==> r == Raised(TypeError) && net.log == old(net.log)
      ensures FilePath(sharename, fileid).Ok? ==>
        && net.log == old(net.log) + [Call.Get(FilePath(sharename, fileid).value)]
        && r == FileReply(net.server.answer(net.log).status, net.server.answer(net.log).body)
    {
      var path := FilePath(sharename, fileid);
      if path.Err? {
        return Raised(path.error);
      }
      var response := net.Get(path.value);
      r := FileReply(response.status, response.body);
    }

    /** `create_share`: one POST, titled iff a title was passed; a share iff the status is 200. */
    method CreateShare(title: Option<Value>) returns (r: Reply<Share>)
      modifies net
      ensures net.log == old(net.log) + [Call.Post(CreateSharePath(token), TitleParams(title))]
      ensures r == ShareReply(net.server.answer(net.log).status, net.server.answer(net.log).body)
    {
      var params: Option<map<string, Value>> := None;
      if title.Some? {
        params := Some(map["title" := title.value]);
      }
      var response := net.Post(CreateSharePath(token), params);
      r := ShareReply(response.status, response.body);
    }

    /** `upload_file`, step by step; it makes the calls of `Upload` and ends as it does. */
    method UploadFile(u: UploadArgs) returns (r: Reply<File>)
      modifies net
      ensures var run := Upload(u, token, net.server, old(net.log));
        r == run.reply && net.log == old(net.log) + run.calls
    {
      if u.filename.None? {
        return Raised(MissingArgument("filename"));
      }
      var params := FilenameParams(u.filename.value);
      if u.data.None? {
        return Raised(MissingArgument("data"));
      }
      ghost var made: seq<Call> := [];
      var sharename: Value;
      if u.sharename.None? {
        var share := CreateShare(u.title);
        var name := SharenameOf(share);
        if name.Err? {
          return Raised(name.error);
        }
        sharename := name.value;
        made := [Post(CreateSharePath(token), TitleParams(u.title))];
      } else {
        sharename := VStr(u.sharename.value);
      }
      var text := Render(sharename);
      if text.None? {
        return Raised(Unrendered);
      }
      assert net.log == old(net.log) + made;
      var response := net.Post(UploadPath(text.value, token), params);
      ghost var post := Post(UploadPath(text.value, token), params);
      assert net.log == old(net.log) + made + [post];
      if response.status == 200 {
        var f := RegisteredFile(response.body, sharename);
        if f.Err? {
          return Raised(f.error);
        }
        var sent := net.SendData(f.value, u.data.value);
        assert net.log == old(net.log) + made + [post, SendData(f.value, u.data.value)];
        if sent {
          return Got(f.value);
        }
      }
      return Nothing;
    }
  }
}
