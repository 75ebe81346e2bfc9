/** The smoke tester's `runTests`: four request tests, one per listed
    game in between, and the pass/fail counters that decide the exit
    status. The server's replies and `JSON.parse` are inputs. */
module SmokeRun {
  import opened JsValue
  import opened JsString
  import StaticServer

  /** What `testRequest(path)` settles to: the reply's status and body,
      or a rejection (a request error). */
  datatype Reply = Reply(status: int, body: string) | Rejected

  /** `testsPassed` and `testsFailed`. */
  datatype Counters = Counters(passed: nat, failed: nat)

  function Passed(c: Counters): Counters { c.(passed := c.passed + 1) }
  function Failed(c: Counters): Counters { c.(failed := c.failed + 1) }

  /** Test 1: status 200 and a body mentioning "Game Center". */
  predicate IndexTestPasses(r: Reply) {
    r.Reply? && r.status == 200 && Includes(r.body, "Game Center")
  }

  /** Test 4: the body mentions the grid, whatever the status. */
  predicate GridTestPasses(r: Reply) {
    r.Reply? && (Includes(r.body, "game-grid") || Includes(r.body, "gameGrid"))
  }

  /** A registry `path` turned into a URL path: a leading `.` of `./` is
      dropped, a leading `/` is kept, anything else gets one. */
  function NormalizeGamePath(p: string): (u: string)
    ensures StartsWith(u, "/")
    ensures StartsWith(p, "./") ==> u == p[1..]
    ensures !StartsWith(p, "./") && StartsWith(p, "/") ==> u == p
    ensures !StartsWith(p, "./") && !StartsWith(p, "/") ==> u == "/" + p
  {
    if StartsWith(p, "./") then p[1..]
    else if !StartsWith(p, "/") then "/" + p
    else p
  }

  /** Normalising a normalised path changes nothing. */
  lemma NormalizeIdempotent(p: string)
    ensures NormalizeGamePath(NormalizeGamePath(p)) == NormalizeGamePath(p)
  {
    var u := NormalizeGamePath(p);
    assert u[0] == '/';
    assert !StartsWith(u, "./");
  }

  /** The game's request target, `${gamePath}/index.html`. */
  function GameTarget(p: string): (target: string)
    ensures StartsWith(target, "/")
    ensures EndsWith(target, "/index.html")
    ensures target[..|target| - 11] == NormalizeGamePath(p)
  {
    var u := NormalizeGamePath(p);
    var target := u + "/index.html";
    assert target[..1] == u[..1];
    assert target[|target| - 11..] == "/index.html";
    target
  }

  /** How the loop body for one game ended. */
  datatype Step = Continue(c: Counters) | Escape(c: Counters)

  /** The loop body throws out of its own `catch`: reading `game.path`
      throws on a `null` or `undefined` entry, and every way through the
      body, the `catch` block included, renders `${game.id}`. */
  predicate Escapes(game: Value) {
    Nullish(game) || ToStringThrows(Prop(game, "id"))
  }

  /** A game whose page request answers 200. */
  predicate GamePasses(game: Value, serve: string -> Reply) {
    && !Escapes(game)
    && Prop(game, "path").Str?
    && serve(GameTarget(Prop(game, "path").s)).Reply?
    && serve(GameTarget(Prop(game, "path").s)).status == 200
  }

  /** One iteration of the `for...of` loop. `game.path.startsWith`
      throws unless `path` is a string, and the `catch` counts that, like
      a rejected request or a status other than 200; a body that throws
      out of its `catch` counts nothing and leaves the loop. */
  function GameStep(game: Value, serve: string -> Reply, c: Counters): (s: Step)
    ensures s.Escape? <==> Escapes(game)
    ensures s.Escape? ==> s.c == c
    ensures s.Continue? ==> s.c == Passed(c) || s.c == Failed(c)
    ensures s == Continue(Passed(c)) <==> GamePasses(game, serve)
  {
    match Get(game, "path")
    case Throw => Escape(c)
    case Normal(path) =>
      if ToStringThrows(Prop(game, "id")) then Escape(c)
      else if !path.Str? then Continue(Failed(c))
      else
        match serve(GameTarget(path.s))
        case Rejected => Continue(Failed(c))
        case Reply(status, _) => if status == 200 then Continue(Passed(c)) else Continue(Failed(c))
  }

  /** The loop over `gamesData.games`: it runs to the end exactly when no
      entry escapes, and then counts one test per game. */
  function GamesLoop(games: seq<Value>, serve: string -> Reply, c: Counters): (s: Step)
    ensures s.c.passed >= c.passed && s.c.failed >= c.failed
    ensures s.Continue? <==> forall i :: 0 <= i < |games| ==> !Escapes(games[i])
    ensures s.Continue? ==> s.c.passed + s.c.failed == c.passed + c.failed + |games|
    decreases |games|
  {
    if games == [] then Continue(c)
    else
      assert forall i :: 0 < i < |games| ==> games[1..][i - 1] == games[i];
      match GameStep(games[0], serve, c)
      case Escape(c') => Escape(c')
      case Continue(c') => GamesLoop(games[1..], serve, c')
  }

  /** The games whose request answers 200. */
  function Reachable(games: seq<Value>, serve: string -> Reply): (n: nat)
    ensures n <= |games|
    decreases |games|
  {
    if games == [] then 0
    else (if GamePasses(games[0], serve) then 1 else 0) + Reachable(games[1..], serve)
  }

  /** When no entry escapes, the passes are the games whose page
      answers 200 and the failures are the rest. */
  lemma {:induction false} GamesLoopCounts(games: seq<Value>, serve: string -> Reply, c: Counters)
    requires forall i :: 0 <= i < |games| ==> !Escapes(games[i])
    ensures GamesLoop(games, serve, c)
              == Continue(Counters(c.passed + Reachable(games, serve),
                                   c.failed + |games| - Reachable(games, serve)))
    decreases |games|
  {
    if games != [] {
      assert !Escapes(games[0]);
      var s := GameStep(games[0], serve, c);
      assert forall i :: 0 <= i < |games| - 1 ==> games[1..][i] == games[i + 1];
      GamesLoopCounts(games[1..], serve, s.c);
    }
  }

  /** The loop adds no failure exactly when every game passes. */
  lemma {:induction false} GamesLoopClean(games: seq<Value>, serve: string -> Reply, c: Counters)
    ensures (GamesLoop(games, serve, c).Continue? && GamesLoop(games, serve, c).c.failed == c.failed)
              <==> forall i :: 0 <= i < |games| ==> GamePasses(games[i], serve)
    decreases |games|
  {
    if games != [] {
      var s := GameStep(games[0], serve, c);
      GamesLoopClean(games[1..], serve, s.c);
      assert forall i :: 0 < i < |games| ==> games[1..][i - 1] == games[i];
      if s == Continue(Passed(c)) {
        assert GamesLoop(games, serve, c) == GamesLoop(games[1..], serve, Passed(c));
      } else if s.Continue? {
        assert GamesLoop(games, serve, c).c.failed >= c.failed + 1;
      }
    }
  }

  /** An escaping entry stops the loop: the games after it are never
      requested, and the counters are those before it. */
  lemma {:induction false} EscapeStopsLoop(games: seq<Value>, serve: string -> Reply, c: Counters, i: nat)
    requires i < |games| && Escapes(games[i])
    requires forall j :: 0 <= j < i ==> !Escapes(games[j])
    ensures GamesLoop(games, serve, c) == Escape(GamesLoop(games[..i], serve, c).c)
    decreases i
  {
    if i > 0 {
      assert !Escapes(games[0]);
      var s := GameStep(games[0], serve, c);
      assert games[1..][..i - 1] == games[..i][1..];
      assert forall j :: 0 <= j < i - 1 ==> games[1..][j] == games[j + 1];
      EscapeStopsLoop(games[1..], serve, s.c, i - 1);
    }
  }

  /** `gamesData.games` is an array; reading it throws for `null`. */
  predicate Listed(data: Value) {
    !Nullish(data) && Prop(data, "games").Arr?
  }

  /** Test 2 and, when it passes, test 3 for every game. */
  function RegistryPhase(r: Reply, parse: string -> Option<Value>, serve: string -> Reply, c: Counters): (c': Counters)
    ensures c'.passed >= c.passed && c'.failed >= c.failed
    ensures r.Rejected? || r.status != 200 ==> c' == Failed(c)
    ensures r.Reply? && r.status == 200 && parse(r.body).None? ==> c' == Failed(Failed(c))
    ensures r.Reply? && r.status == 200 && parse(r.body).Some? && !Listed(parse(r.body).value) ==> c' == Failed(c)
    ensures r.Reply? && r.status == 200 && parse(r.body).Some? && Listed(parse(r.body).value) ==>
              c'.passed >= c.passed + 1
  {
    match r
    case Rejected => Failed(c)
    case Reply(status, body) =>
      if status != 200 then Failed(c)
      else
        match parse(body)
        // counted where the parse error is caught, then again where the
        // rethrown error is caught
        case None => Failed(Failed(c))
        case Some(data) =>
          // `gamesData.games` throws on `null`; the outer catch counts it
          if !Listed(data) then Failed(c)
          else
            match GamesLoop(Prop(data, "games").elems, serve, Passed(c))
            case Continue(c') => c'
            // the outer catch counts the escaping entry once
            case Escape(c') => Failed(c')
  }

  /** A listed registry with no escaping entry: one pass for test 2,
      then one pass per reachable game and one failure per other game. */
  lemma RegistryPhaseCounts(body: string, data: Value, parse: string -> Option<Value>, serve: string -> Reply, c: Counters)
    requires parse(body) == Some(data) && Listed(data)
    requires forall i :: 0 <= i < |Prop(data, "games").elems| ==> !Escapes(Prop(data, "games").elems[i])
    ensures RegistryPhase(Reply(200, body), parse, serve, c)
              == Counters(c.passed + 1 + Reachable(Prop(data, "games").elems, serve),
                          c.failed + |Prop(data, "games").elems| - Reachable(Prop(data, "games").elems, serve))
  {
    GamesLoopCounts(Prop(data, "games").elems, serve, Passed(c));
  }

  /** At the first escaping entry the counts stop, and the outer catch
      adds one failure. */
  lemma RegistryPhaseEscape(body: string, data: Value, games: seq<Value>, parse: string -> Option<Value>, serve: string -> Reply, c: Counters, i: nat)
    requires parse(body) == Some(data) && !Nullish(data) && Prop(data, "games") == Arr(games)
    requires i < |games| && Escapes(games[i])
    requires forall j :: 0 <= j < i ==> !Escapes(games[j])
    ensures RegistryPhase(Reply(200, body), parse, serve, c) == Failed(GamesLoop(games[..i], serve, Passed(c)).c)
  {
    EscapeStopsLoop(games, serve, Passed(c), i);
  }

  /** `{"games":[null]}` counts test 2 as passed and the entry as one
      failure. */
  lemma SingleNullEntry(body: string, parse: string -> Option<Value>, serve: string -> Reply, c: Counters)
    requires parse(body) == Some(Obj(map["games" := Arr([Null])]))
    ensures RegistryPhase(Reply(200, body), parse, serve, c) == Counters(c.passed + 1, c.failed + 1)
  {
    var data := Obj(map["games" := Arr([Null])]);
    RegistryPhaseEscape(body, data, [Null], parse, serve, c, 0);
    assert [Null][..0] == [];
  }

  /** Invalid JSON counts two failures and requests no game. */
  lemma InvalidJsonCountsTwice(body: string, parse: string -> Option<Value>, serve: string -> Reply, other: string -> Reply, c: Counters)
    requires parse(body).None?
    ensures RegistryPhase(Reply(200, body), parse, serve, c) == Counters(c.passed, c.failed + 2)
    ensures RegistryPhase(Reply(200, body), parse, serve, c) == RegistryPhase(Reply(200, body), parse, other, c)
  {
  }

  /** Test 2 and the games add no failure exactly when the registry
      answers 200, parses, lists its games, and every game passes. */
  lemma RegistryPhaseClean(r: Reply, parse: string -> Option<Value>, serve: string -> Reply, c: Counters)
    ensures (RegistryPhase(r, parse, serve, c).failed == c.failed)
              <==> (&& r.Reply? && r.status == 200 && parse(r.body).Some? && Listed(parse(r.body).value)
                    && var games := Prop(parse(r.body).value, "games").elems;
                       forall i :: 0 <= i < |games| ==> GamePasses(games[i], serve))
  {
    if r.Reply? && r.status == 200 && parse(r.body).Some? && Listed(parse(r.body).value) {
      GamesLoopClean(Prop(parse(r.body).value, "games").elems, serve, Passed(c));
    }
  }

  /** `runTests` after the server is listening. */
  function RunTests(serve: string -> Reply, parse: string -> Option<Value>): (c: Counters)
    ensures c.passed + c.failed >= 3
    ensures !IndexTestPasses(serve("/")) || !GridTestPasses(serve("/")) ==> c.failed > 0
  {
    var c1 := if IndexTestPasses(serve("/")) then Passed(Counters(0, 0)) else Failed(Counters(0, 0));
    var c2 := RegistryPhase(serve("/games.json"), parse, serve, c1);
    if GridTestPasses(serve("/")) then Passed(c2) else Failed(c2)
  }

  /** `process.exit(testsFailed > 0 ? 1 : 0)` */
  function SmokeExitCode(c: Counters): int {
    if c.failed > 0 then 1 else 0
  }

  /** Exit status 0 exactly when the index page names the site, the grid
      marker is there, the registry answers 200, parses and lists its
      games, and every listed game's page answers 200. */
  lemma SmokeExitZero(serve: string -> Reply, parse: string -> Option<Value>)
    ensures (SmokeExitCode(RunTests(serve, parse)) == 0)
              <==> (&& IndexTestPasses(serve("/"))
                    && GridTestPasses(serve("/"))
                    && serve("/games.json").Reply? && serve("/games.json").status == 200
                    && parse(serve("/games.json").body).Some?
                    && Listed(parse(serve("/games.json").body).value)
                    && var games := Prop(parse(serve("/games.json").body).value, "games").elems;
                       forall i :: 0 <= i < |games| ==> GamePasses(games[i], serve))
  {
    var c1 := if IndexTestPasses(serve("/")) then Passed(Counters(0, 0)) else Failed(Counters(0, 0));
    RegistryPhaseClean(serve("/games.json"), parse, serve, c1);
  }

  /** A listed registry with no escaping entry makes the run count
      exactly three tests plus one per game, and pass exactly the ones
      that succeed. */
  lemma RunCountsEveryGame(serve: string -> Reply, parse: string -> Option<Value>, data: Value)
    requires serve("/games.json").Reply? && serve("/games.json").status == 200
    requires parse(serve("/games.json").body) == Some(data) && Listed(data)
    requires forall i :: 0 <= i < |Prop(data, "games").elems| ==> !Escapes(Prop(data, "games").elems[i])
    ensures RunTests(serve, parse).passed + RunTests(serve, parse).failed
              == 3 + |Prop(data, "games").elems|
    ensures RunTests(serve, parse).passed
              == 1 + Reachable(Prop(data, "games").elems, serve)
                 + (if IndexTestPasses(serve("/")) then 1 else 0)
                 + (if GridTestPasses(serve("/")) then 1 else 0)
  {
    var c1 := if IndexTestPasses(serve("/")) then Passed(Counters(0, 0)) else Failed(Counters(0, 0));
    RegistryPhaseCounts(serve("/games.json").body, data, parse, serve, c1);
  }

  /** The reply of the model server for a filesystem: `new URL` is
      taken to leave the request target unchanged. */
  function ServerReply(fs: StaticServer.ServerFs, target: string): (r: Reply)
    ensures r.Reply? && r.status == StaticServer.Handle(target, fs).status
    ensures r.body == StaticServer.Handle(target, fs).body
  {
    var response := StaticServer.Handle(target, fs);
    Reply(response.status, response.body)
  }

  /** Against the model server, test 1 passes exactly when the joined
      `/index.html` passes the guard, exists, reads, and names the site. */
  lemma IndexTestAgainstServer(fs: StaticServer.ServerFs)
    ensures var filePath := fs.join("/index.html");
            IndexTestPasses(ServerReply(fs, "/")) <==>
              && !StaticServer.Forbidden(fs.root, filePath)
              && fs.isPresent(filePath)
              && fs.read(filePath).Some?
              && Includes(fs.read(filePath).value, "Game Center")
  {
    var r := StaticServer.Handle("/index.html", fs);
    StaticServer.RootIsIndex(fs);
  }

  /** Against the model server, a listed game passes exactly when its
      joined target passes the guard, exists and reads. */
  lemma GameAgainstServer(fs: StaticServer.ServerFs, game: Value, c: Counters)
    requires !Nullish(game) && Prop(game, "path").Str?
    ensures var filePath := fs.join(GameTarget(Prop(game, "path").s));
            (GameStep(game, t => ServerReply(fs, t), c) == Continue(Passed(c)))
              <==> (&& !ToStringThrows(Prop(game, "id"))
                    && !StaticServer.Forbidden(fs.root, filePath)
                    && fs.isPresent(filePath)
                    && fs.read(filePath).Some?)
  {
    var target := GameTarget(Prop(game, "path").s);
    assert target != "/" by {
      assert EndsWith(target, "/index.html");
    }
    assert StaticServer.RequestPath(target) == target;
  }
}
