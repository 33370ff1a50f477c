/** The front controller: every request is answered as JSON with an open
    CORS header; its URI is normalised by `trim` and `str_replace`, and the
    result picks exactly one handler. Routing looks at the path only. */
module Router {
  import opened Wrappers
  import opened Json
  import opened Strings
  import Config
  import Modes
  import Php

  /** The mount prefix deleted from the path, wherever it occurs. */
  const MountPrefix: string := "api-T/"

  /** `trim($uri, '/')`, then `str_replace('api-T/', '', ...)`. The result
      never ends with a separator. */
  function Normalise(uri: string): (path: string)
    ensures |path| <= |uri|
    ensures path == [] || path[|path| - 1] != Sep
  {
    var t := Trim(uri);
    if t == [] then t
    else
      DeleteKeepsLast(t, MountPrefix);
      Delete(t, MountPrefix)
  }

  datatype Endpoint = Status | MatrixConfig | MatrixModes | NotFound

  /** The paths the `switch` names. */
  const Routes: set<string> := {"", "status", "matrix/config", "matrix/modes"}

  /** The `switch` on the normalised path: a named path picks its handler,
      every other path is not found. */
  function Dispatch(path: string): (e: Endpoint)
    ensures e == NotFound <==> path !in Routes
  {
    if path == "" || path == "status" then Status
    else if path == "matrix/config" then MatrixConfig
    else if path == "matrix/modes" then MatrixModes
    else NotFound
  }

  datatype Header = Header(name: string, value: string)

  const ContentType: Header := Header("Content-Type", "application/json")
  const AllowOrigin: Header := Header("Access-Control-Allow-Origin", "*")

  datatype Request = Request(verb: string, uri: string, input: Value, now: int)
  datatype Response = Response(status: int, headers: seq<Header>, body: Option<Value>)
  datatype Reply = Reply(response: Response, store: Config.Store)

  function NotFoundBody(path: string): (v: Value)
    ensures v.JObj? && v.fields.Keys == {"error", "path"}
    ensures v.fields["error"] == JStr("Endpoint not found") && v.fields["path"] == JStr(path)
  {
    JObj(map["error" := JStr("Endpoint not found"), "path" := JStr(path)])
  }

  /** Serves one request against the state file `store`. The status
      endpoint's payload comes from a file outside this model and is passed
      in as `statusBody`. */
  function Serve(req: Request, statusBody: Value, store: Config.Store): (r: Reply)
    ensures ContentType in r.response.headers && AllowOrigin in r.response.headers
    ensures r.response.status == 404 <==> Dispatch(Normalise(req.uri)) == NotFound
    ensures Dispatch(Normalise(req.uri)) != MatrixConfig ==> r.store == store && r.response.body.Some?
    ensures Config.WellFormed(store) ==> Config.WellFormed(r.store)
  {
    var path := Normalise(req.uri);
    var headers := [ContentType, AllowOrigin];
    match Dispatch(path)
    case Status => Reply(Response(200, headers, Some(statusBody)), store)
    case MatrixConfig =>
      var o := Config.Handle(req.verb, req.input, req.now, store);
      Reply(Response(o.status, headers, o.body), o.store)
    case MatrixModes => Reply(Response(200, headers, Some(Modes.ModesPayload())), store)
    case NotFound => Reply(Response(404, headers, Some(NotFoundBody(path))), store)
  }

  /** The routes, both ways: each endpoint is chosen by exactly these paths. */
  lemma DispatchRoutes(path: string)
    ensures Dispatch(path) == Status <==> path == "" || path == "status"
    ensures Dispatch(path) == MatrixConfig <==> path == "matrix/config"
    ensures Dispatch(path) == MatrixModes <==> path == "matrix/modes"
    ensures Dispatch(path) == NotFound <==> path !in Routes
  {
  }

  /** An unknown path is answered 404 with the normalised path echoed, and
      nothing is written. */
  lemma NotFoundEchoesPath(req: Request, statusBody: Value, store: Config.Store)
    requires Dispatch(Normalise(req.uri)) == NotFound
    ensures var r := Serve(req, statusBody, store);
            r.response.status == 404 && r.store == store
            && r.response.body == Some(NotFoundBody(Normalise(req.uri)))
  {
  }

  /** Routing ignores the method, the body and the time: two requests for
      the same URI reach the same handler, and outside `matrix/config` they
      get the same reply. */
  lemma RoutingIgnoresMethod(r1: Request, r2: Request, statusBody: Value, store: Config.Store)
    requires r1.uri == r2.uri
    ensures Dispatch(Normalise(r1.uri)) != MatrixConfig ==> Serve(r1, statusBody, store) == Serve(r2, statusBody, store)
  {
  }

  /** The mode list is the same whatever the request and the stored state. */
  lemma ModesConstant(req: Request, statusBody: Value, store: Config.Store)
    requires Dispatch(Normalise(req.uri)) == MatrixModes
    ensures Serve(req, statusBody, store) == Reply(Response(200, [ContentType, AllowOrigin], Some(Modes.ModesPayload())), store)
  {
  }

  /** An occurrence of the mount prefix has a '-' three characters in. */
  lemma OccursAtDash(s: string, k: int)
    requires OccursAt(s, MountPrefix, k)
    ensures s[k + 3] == '-'
  {
    assert s[k..k + |MountPrefix|][3] == MountPrefix[3];
  }

  /** A path without '-' holds no copy of the mount prefix. */
  lemma NoDashNoPrefix(p: string)
    requires forall k | 0 <= k < |p| :: p[k] != '-'
    ensures !Occurs(p, MountPrefix)
  {
    if Occurs(p, MountPrefix) {
      var k :| 0 <= k <= |p| && OccursAt(p, MountPrefix, k);
      OccursAtDash(p, k);
    }
  }

  /** A route requested under the mount prefix, with any number of
      separators around it, normalises to the bare route. */
  lemma MountedPath(a: string, p: string, b: string)
    requires AllSep(a) && AllSep(b)
    requires p != [] && BareEnds(p) && !Occurs(p, MountPrefix)
    ensures Normalise(a + MountPrefix + p + b) == p
  {
    var s := a + MountPrefix + p + b;
    var i := |a|;
    var j := |a| + |MountPrefix| + |p|;
    assert forall k | 0 <= k < i :: s[k] == a[k];
    assert forall k | j <= k < |s| :: s[k] == b[k - j];
    assert s[i..j] == MountPrefix + p;
    assert s[i] == 'a' && s[j - 1] == p[|p| - 1];
    TrimUnique(s, i, j);
    DeleteLeading(MountPrefix, p);
  }

  /** `Normalise` is the trim followed by the deletion. */
  lemma NormaliseSteps(uri: string)
    ensures Normalise(uri) == Delete(Trim(uri), MountPrefix)
  {
  }

  /** A path with no separator at either end that holds no copy of the
      prefix is its own normal form behind one leading separator. */
  lemma LeadingSepOnly(p: string)
    requires p != [] && BareEnds(p) && !Occurs(p, MountPrefix)
    ensures Normalise("/" + p) == p
  {
    var s := "/" + p;
    assert forall k | 1 <= k < |s| :: s[k] == p[k - 1];
    assert TrimmedAt(s, 1, |s|);
    TrimUnique(s, 1, |s|);
    assert s[1..|s|] == p;
    NormaliseSteps(s);
  }

  /** A path free of '-' with no separator at either end is its own
      normal form, with or without the mount prefix in front. */
  lemma PlainPath(p: string)
    requires p != [] && BareEnds(p)
    requires forall k | 0 <= k < |p| :: p[k] != '-'
    ensures Normalise("/" + p) == p && Normalise("/" + MountPrefix + p) == p
  {
    NoDashNoPrefix(p);
    MountedPath("/", p, "");
    assert "/" + MountPrefix + p + "" == "/" + MountPrefix + p;
    LeadingSepOnly(p);
  }

  /** The three named routes, requested with a leading separator, with or
      without the mount prefix, reach their handlers. */
  lemma PlainRoutes(p: string)
    requires p in {"status", "matrix/config", "matrix/modes"}
    ensures Normalise("/" + p) == p && Normalise("/" + MountPrefix + p) == p
    ensures Dispatch(p) != NotFound
  {
    PlainPath(p);
  }

  /** The prefix is deleted wherever it stands, not only at the front. */
  lemma {:induction false} DeleteInside(x: string, y: string)
    requires forall k | 0 <= k < |x| :: x[k] != '-'
    requires forall k | 0 <= k < |y| :: y[k] != '-'
    ensures Delete(x + MountPrefix + y, MountPrefix) == x + y
  {
    var s := x + (MountPrefix + y);
    assert s == x + MountPrefix + y;
    forall k | 0 <= k < |x|
      ensures !OccursAt(s, MountPrefix, k)
    {
      if OccursAt(s, MountPrefix, k) {
        OccursAtDash(s, k);
      }
    }
    DeleteKeepsPrefix(x, MountPrefix + y, MountPrefix);
    DeleteLeading(MountPrefix, y);
    NoDashNoPrefix(y);
  }

  /** A copy of the prefix in the middle of a path is deleted too. */
  lemma PrefixInsidePath(x: string, y: string)
    requires x != [] && x[0] != Sep && y != [] && y[|y| - 1] != Sep
    requires forall k | 0 <= k < |x| :: x[k] != '-'
    requires forall k | 0 <= k < |y| :: y[k] != '-'
    ensures Normalise("/" + x + MountPrefix + y) == x + y
  {
    var s := "/" + x + MountPrefix + y;
    assert s[..1] == "/" && s[|s|..] == [];
    assert s[1..|s|] == x + MountPrefix + y;
    TrimUnique(s, 1, |s|);
    DeleteInside(x, y);
  }

  /** So `matrix/api-T/config` reaches the config handler. */
  lemma PrefixInsideExample()
    ensures Dispatch(Normalise("/" + "matrix/" + MountPrefix + "config")) == MatrixConfig
  {
    PrefixInsidePath("matrix/", "config");
  }

  /** Trimming comes first, so a separator after the prefix survives:
      `api-T//status` normalises to `/status`, which is not found. */
  lemma TrimBeforeReplace(q: string)
    requires q != [] && q[|q| - 1] != Sep
    requires forall k | 0 <= k < |q| :: q[k] != '-'
    ensures Normalise(MountPrefix + "/" + q) == "/" + q
    ensures Dispatch("/" + q) == NotFound
  {
    var s := MountPrefix + ("/" + q);
    assert s == MountPrefix + "/" + q;
    assert s[0] == 'a' && s[|s| - 1] == q[|q| - 1];
    TrimBare(s);
    NormaliseSteps(s);
    DeleteLeading(MountPrefix, "/" + q);
    NoDashNoPrefix("/" + q);
  }

  /** The mount root itself loses only its trailing separator, so it is not
      the status route. */
  lemma MountRootNotFound()
    ensures Normalise("/api-T/") == "api-T"
    ensures Dispatch(Normalise("/api-T/")) == NotFound
  {
    var s := "/api-T/";
    assert s[..1] == "/" && s[6..] == "/" && s[1..6] == "api-T";
    TrimUnique(s, 1, 6);
  }

  /** The scan is a single pass: what is left may spell the prefix again. */
  lemma SinglePass()
    ensures Delete("api-api-T/T/", MountPrefix) == "api-T/"
  {
    var s := "api-api-T/T/";
    assert s == "api-" + (MountPrefix + "T/");
    forall k | 0 <= k < 4
      ensures !OccursAt(s, MountPrefix, k)
    {
      if k == 0 {
        assert s[4] != MountPrefix[4];
        assert s[0..6][4] == s[4];
      } else {
        assert s[k + 3] != '-';
        if OccursAt(s, MountPrefix, k) {
          OccursAtDash(s, k);
        }
      }
    }
    DeleteKeepsPrefix("api-", MountPrefix + "T/", MountPrefix);
    DeleteLeading(MountPrefix, "T/");
  }

  /** The URI is matched with its query string, so any query makes a known
      route unknown. */
  lemma QueryStringNotFound(path: string)
    requires '?' in path
    ensures Dispatch(path) == NotFound
  {
  }

  lemma QueryStringExample()
    ensures Dispatch(Normalise("/" + MountPrefix + "matrix/config?x=1")) == NotFound
  {
    var p := "matrix/config?x=1";
    PlainPath(p);
    assert p[13] == '?';
  }

  /** End to end: a successful update through the router is what the next
      read returns, whichever spelling of the route each request uses. */
  lemma ReadAfterWrite(w: Request, r: Request, statusBody: Value, store: Config.Store)
    requires w.verb == "POST" && Php.Truthy(w.input) && r.verb == "GET"
    requires Dispatch(Normalise(w.uri)) == MatrixConfig && Dispatch(Normalise(r.uri)) == MatrixConfig
    ensures var wr := Serve(w, statusBody, store);
            var rr := Serve(r, statusBody, wr.store);
            rr.response.status == 200 && rr.response.body == wr.response.body
            && rr.response.body == Some(Config.Encode(Config.Build(w.input, w.now)))
  {
  }
}
