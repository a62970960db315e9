/** The worker entry point's routing rule: the root serves the test page, any path that
    starts with `/agent` goes to the counter agent instance named by its third `/`-field
    (or `default`), and everything else is not found. */
module Routing {
  import opened Text

  datatype Route = TestPage | ToAgent(name: string) | NotFound

  /** The instance a path names: the third field of `path.split("/")` when there is one
      and it is not empty, else `default`. */
  function InstanceName(path: string): (name: string)
    ensures name != []
  {
    var parts := Split(path, '/');
    if |parts| > 2 && parts[2] != "" then parts[2] else "default"
  }

  /** The routing branch of `Default.fetch`, on the request's URL path. */
  function RouteFor(path: string): (r: Route)
    ensures r == TestPage <==> path == "/" || path == ""
    ensures r.ToAgent? <==> StartsWith(path, "/agent")
    ensures r.ToAgent? ==> r.name != [] && '/' !in r.name
  {
    if path == "/" || path == "" then TestPage
    else if StartsWith(path, "/agent") then ToAgent(InstanceName(path))
    else NotFound
  }

  /** A path `/agent<w>/<name><rest>` routes to `name`, where `w` holds no slash (so
      `/agents/x` routes to `x` as well) and `rest` is empty or starts a new field. */
  lemma AgentInstance(w: string, name: string, rest: string)
    requires '/' !in w && '/' !in name && name != []
    requires rest == [] || rest[0] == '/'
    ensures RouteFor("/agent" + w + "/" + name + rest) == ToAgent(name)
  {
    var path := "/agent" + w + "/" + name + rest;
    assert StartsWith(path, "/agent") by { assert path[..6] == "/agent"; }
    var field := "agent" + w;
    NoSlashField(w);
    SplitFieldThenSep("", field + "/" + name + rest, '/');
    assert path == "" + ['/'] + (field + "/" + name + rest);
    SplitFieldThenSep(field, name + rest, '/');
    assert field + "/" + name + rest == field + ['/'] + (name + rest);
    NameThenRest(name, rest);
  }

  /** The first field of `name + rest` is `name`. */
  lemma NameThenRest(name: string, rest: string)
    requires '/' !in name && (rest == [] || rest[0] == '/')
    ensures Split(name + rest, '/')[0] == name
  {
    if rest == [] {
      assert name + rest == name;
      SplitNoSep(name, '/');
    } else {
      assert name + rest == name + ['/'] + rest[1..];
      SplitFieldThenSep(name, rest[1..], '/');
    }
  }

  /** `/agent<w>` with no further field goes to the `default` instance. */
  lemma BareAgentPath(w: string)
    requires '/' !in w
    ensures RouteFor("/agent" + w) == ToAgent("default")
  {
    var path := "/agent" + w;
    assert StartsWith(path, "/agent") by { assert path[..6] == "/agent"; }
    var field := "agent" + w;
    NoSlashField(w);
    assert path == "" + ['/'] + field;
    SplitFieldThenSep("", field, '/');
    SplitNoSep(field, '/');
  }

  /** An empty third field, as in `/agent/` or `/agent//x`, also names `default`. */
  lemma EmptyInstanceField(w: string, rest: string)
    requires '/' !in w && (rest == [] || rest[0] == '/')
    ensures RouteFor("/agent" + w + "/" + rest) == ToAgent("default")
  {
    var path := "/agent" + w + "/" + rest;
    assert StartsWith(path, "/agent") by { assert path[..6] == "/agent"; }
    var field := "agent" + w;
    NoSlashField(w);
    assert path == "" + ['/'] + (field + ['/'] + ("" + rest));
    SplitFieldThenSep("", field + ['/'] + ("" + rest), '/');
    SplitFieldThenSep(field, "" + rest, '/');
    NameThenRest("", rest);
  }

  lemma NoSlashField(w: string)
    requires '/' !in w
    ensures '/' !in "agent" + w
  {
    var field := "agent" + w;
    forall i | 0 <= i < |field| ensures field[i] != '/' {
      if i >= 5 { assert field[i] == w[i - 5]; }
    }
  }
}
