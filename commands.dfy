/** Commands the controller hands to the runner: verb, path and body, the
    REST paths they are addressed to, and the encoding of many commands into
    one batch command. */
module Commands {
  import opened Wire

  datatype Verb = Get | Post | Put | Delete

  /** One network request. */
  datatype Command = Command(verb: Verb, path: string, body: Option<Body>)

  const ClassesPrefix: string := "/1/classes/"
  const BatchPath: string := "/1/batch"

  /** Where a path points. */
  datatype Route = ClassRoute(className: string) | ObjectRoute(className: string, objectId: string) | BatchRoute

  /** The path of a class, where new objects are created. */
  function ClassPath(className: string): (p: string)
    ensures |p| == |ClassesPrefix| + |className|
    ensures p[..|ClassesPrefix|] == ClassesPrefix && p[|ClassesPrefix|..] == className
  {
    ClassesPrefix + className
  }

  /** The path of one existing object. */
  function ObjectPath(className: string, objectId: string): (p: string)
    ensures var prefix := ClassPath(className);
            && |p| == |prefix| + 1 + |objectId|
            && p[..|prefix|] == prefix && p[|prefix|] == '/' && p[|prefix| + 1..] == objectId
  {
    ClassPath(className) + "/" + objectId
  }

  /** The position of the first `c` in `s`. */
  function IndexOf(s: string, c: char): (r: Option<nat>)
    ensures r.Some? ==> r.value < |s| && s[r.value] == c && c !in s[..r.value]
    ensures r.None? ==> c !in s
  {
    if s == [] then None
    else if s[0] == c then Some(0)
    else match IndexOf(s[1..], c)
      case Some(i) => assert s[1..][..i] == s[1..i + 1]; Some(i + 1)
      case None => None
  }

  /** Reads a path back into the route it addresses. */
  function RouteOf(path: string): Option<Route> {
    if path == BatchPath then Some(BatchRoute)
    else if |ClassesPrefix| <= |path| && path[..|ClassesPrefix|] == ClassesPrefix then
      var rest := path[|ClassesPrefix|..];
      match IndexOf(rest, '/')
      case None => Some(ClassRoute(rest))
      case Some(i) => Some(ObjectRoute(rest[..i], rest[i + 1..]))
    else None
  }

  /** A class path addresses exactly its class. */
  lemma ClassPathRoute(className: string)
    requires '/' !in className
    ensures RouteOf(ClassPath(className)) == Some(ClassRoute(className))
  {
  }

  /** An object path addresses exactly its class and object id. */
  lemma ObjectPathRoute(className: string, objectId: string)
    requires '/' !in className
    ensures RouteOf(ObjectPath(className, objectId)) == Some(ObjectRoute(className, objectId))
  {
    var p := ObjectPath(className, objectId);
    assert p[..|ClassesPrefix|] == ClassesPrefix;
    var rest := p[|ClassesPrefix|..];
    assert rest == className + "/" + objectId;
    assert rest[|className|] == '/' && rest[..|className|] == className;
    assert IndexOf(rest, '/') == Some(|className|);
    assert rest[|className| + 1..] == objectId;
    assert |p| != |BatchPath|;
  }

  function VerbName(v: Verb): string {
    match v
    case Get => "GET"
    case Post => "POST"
    case Put => "PUT"
    case Delete => "DELETE"
  }

  function ParseVerb(name: string): (r: Option<Verb>)
    ensures r.Some? ==> VerbName(r.value) == name
  {
    if name == "GET" then Some(Get)
    else if name == "POST" then Some(Post)
    else if name == "PUT" then Some(Put)
    else if name == "DELETE" then Some(Delete)
    else None
  }

  /** One sub-request of a batch body: `{method, path, body?}`. */
  function EncodeRequest(c: Command): Value {
    match c.body
    case None => Obj(map["method" := Str(VerbName(c.verb)), "path" := Str(c.path)])
    case Some(b) => Obj(map["method" := Str(VerbName(c.verb)), "path" := Str(c.path), "body" := Obj(b)])
  }

  /** Reads a sub-request back, if it is one. */
  function DecodeRequest(v: Value): Option<Command> {
    if v.Obj? && "method" in v.fields && v.fields["method"].Str?
       && "path" in v.fields && v.fields["path"].Str? then
      match ParseVerb(v.fields["method"].s)
      case None => None
      case Some(verb) =>
        var body :=
          if "body" in v.fields && v.fields["body"].Obj? then Some(v.fields["body"].fields) else None;
        Some(Command(verb, v.fields["path"].s, body))
    else None
  }

  lemma RequestRoundTrip(c: Command)
    ensures DecodeRequest(EncodeRequest(c)) == Some(c)
  {
  }

  function DecodeRequests(vs: seq<Value>): Option<seq<Command>> {
    if vs == [] then Some([])
    else match (DecodeRequest(vs[0]), DecodeRequests(vs[1..]))
      case (Some(c), Some(cs)) => Some([c] + cs)
      case _ => None
  }

  /** One batch command carrying `requests` as its sub-requests, in order. */
  function BatchCommand(requests: seq<Command>): (c: Command)
    ensures c.verb == Post && c.path == BatchPath
  {
    Command(Post, BatchPath, Some(map["requests" := Arr(EncodeRequests(requests))]))
  }

  function EncodeRequests(requests: seq<Command>): (vs: seq<Value>)
    ensures |vs| == |requests|
  {
    seq(|requests|, i requires 0 <= i < |requests| => EncodeRequest(requests[i]))
  }

  /** The sub-requests listed in a batch command. */
  function BatchRequests(c: Command): Option<seq<Command>> {
    if c.body.Some? && "requests" in c.body.value && c.body.value["requests"].Arr? then
      DecodeRequests(c.body.value["requests"].items)
    else None
  }

  lemma {:induction false} EncodeRequestsRoundTrip(requests: seq<Command>)
    ensures DecodeRequests(EncodeRequests(requests)) == Some(requests)
  {
    if requests != [] {
      var vs := EncodeRequests(requests);
      RequestRoundTrip(requests[0]);
      EncodeRequestsRoundTrip(requests[1..]);
      assert vs[0] == EncodeRequest(requests[0]);
      assert vs[1..] == EncodeRequests(requests[1..]);
      assert [requests[0]] + requests[1..] == requests;
    }
  }

  /** A batch command is addressed to the batch endpoint and lists exactly
      its sub-requests, in order, so a batch of a chunk carries one
      sub-request per chunk member. */
  lemma BatchCommandRoundTrip(requests: seq<Command>)
    ensures RouteOf(BatchCommand(requests).path) == Some(BatchRoute)
    ensures BatchRequests(BatchCommand(requests)) == Some(requests)
  {
    EncodeRequestsRoundTrip(requests);
  }
}
