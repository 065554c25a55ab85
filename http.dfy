/** The transport the facade talks to (`GettRequest` and `GettFile.send_data`,
    whose code is not part of this model), as a log of calls answered by an
    oracle. */
module Http {
  import opened Values
  import opened Domain

  /** One request the client sends. */
  datatype Call =
    | Get(path: string)
    | Post(path: string, params: Option<map<string, Value>>)
    | SendData(file: File, data: Value)   // GettFile.send_data(data=...)

  /** The status code and the decoded JSON body of an answer. */
  datatype Response = Response(status: int, body: Value)

  /** The service, seen from the client: its answer to the latest request and
      whether a byte upload succeeds, each given every call made so far
      (the latest last). */
  datatype Server = Server(answer: seq<Call> -> Response, accepts: seq<Call> -> bool)

  class Transport {
    const server: Server
    /** Every call made through this transport, oldest first. */
    var log: seq<Call>

    constructor (server: Server)
      ensures this.server == server && log == []
    {
      this.server := server;
      log := [];
    }

    method Get(path: string) returns (resp: Response)
      modifies this
      ensures log == old(log) + [Call.Get(path)]
      ensures resp == server.answer(log)
    {
      log := log + [Call.Get(path)];
      resp := server.answer(log);
    }

    method Post(path: string, params: Option<map<string, Value>>) returns (resp: Response)
      modifies this
      ensures log == old(log) + [Call.Post(path, params)]
      ensures resp == server.answer(log)
    {
      log := log + [Call.Post(path, params)];
      resp := server.answer(log);
    }

    method SendData(file: File, data: Value) returns (ok: bool)
      modifies this
      ensures log == old(log) + [Call.SendData(file, data)]
      ensures ok == server.accepts(log)
    {
      log := log + [Call.SendData(file, data)];
      ok := server.accepts(log);
    }
  }
}
