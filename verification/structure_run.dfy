/** One run of the structure validator: the registry tests, the checks of
    every listed game, the site-wide tests, and the exit status. The
    filesystem is an input: what each path holds, and what `JSON.parse`
    makes of the registry text. */
module StructureRun {
  import opened JsValue
  import opened JsString
  import opened Harness
  import opened GameEntry

  /** What a path holds: nothing, a directory, or a file whose text
      `readFileSync` returns (`None` when reading it throws). */
  datatype Entry = Missing | Dir | File(text: Option<string>)

  /** `fs.existsSync(p)` */
  predicate Exists(e: Entry) {
    !e.Missing?
  }

  /** `readFileSync(p, 'utf8')`: throws unless `p` is a readable file. */
  function ReadText(e: Entry): Option<string> {
    if e.File? then e.text else None
  }

  /** The paths one game directory's checks look at. */
  datatype GameFiles = GameFiles(dir: Entry, index: Entry, readme: Entry, gameInfo: Entry)

  /** The repository-root paths the script looks at. */
  datatype SiteFiles = SiteFiles(
    registry: Entry,
    index: Entry,
    readme: Entry,
    agents: Entry,
    workflows: Entry)

  /** The events of a stretch of the script, and whether an exception
      outside any `test` ended the process there. */
  datatype Trace = Trace(events: seq<Event>, crashed: bool)

  /** A boolean-valued predicate as seen by `test`. */
  function BoolCheck(b: bool): Event {
    Check(Normal(Bool(b)))
  }

  /** The `game-info.yaml` part: a file test and three content tests when
      it exists, or a direct `fail` when reading it throws. */
  function GameInfoEvents(info: Entry): (es: seq<Event>)
    ensures !Exists(info) ==> es == []
    ensures Exists(info) && ReadText(info).None? ==> es == [BoolCheck(info.File?), DirectFail]
    ensures ReadText(info).Some? ==>
              var content := ReadText(info).value;
              es == [ BoolCheck(true),
                      BoolCheck(|content| > 0),
                      BoolCheck(Includes(content, "pull_requests:")),
                      BoolCheck(Includes(content, "stats:")) ]
    ensures DirectFail in es <==> Exists(info) && ReadText(info).None?
  {
    if !Exists(info) then []
    else
      match ReadText(info)
      case None => [BoolCheck(info.File?), DirectFail]
      case Some(content) =>
        [ BoolCheck(info.File?),
          BoolCheck(|content| > 0),
          BoolCheck(Includes(content, "pull_requests:")),
          BoolCheck(Includes(content, "stats:")) ]
  }

  /** The nine field tests of an entry that has properties. */
  function FieldEvents(game: Value): (es: seq<Event>)
    requires !Nullish(game)
    ensures |es| == 9
    ensures forall k :: 0 <= k < 9 ==> es[k] == Check(Normal(FieldCheck(Fields[k], Prop(game, Fields[k]))))
  {
    var results := FieldResults(game);
    seq(9, k requires 0 <= k < 9 => Check(Normal(results[k])))
  }

  /** The README test of a game directory: present only when the README
      can be read (a README that exists but cannot be read throws outside
      any test). */
  function ReadmeEvents(readme: Entry, model: Value): (es: seq<Event>)
    ensures ReadText(readme).None? ==> es == []
    ensures ReadText(readme).Some? ==> es == [Check(ReadmeCheck(ReadText(readme).value, model))]
  {
    match ReadText(readme)
    case None => []
    case Some(text) => [Check(ReadmeCheck(text, model))]
  }

  /** Everything the `forEach` body does for one entry. `files` tells
      what the directory named by the entry's `path` holds. */
  function GameTrace(game: Value, files: string -> GameFiles): (t: Trace)
    ensures Label(game).Throw? ==> t == Trace([], true)
    ensures Label(game).Normal? && !Truthy(Prop(game, "path")) ==> t == Trace(FieldEvents(game), false)
    ensures Label(game).Normal? && Truthy(Prop(game, "path")) && !Prop(game, "path").Str? ==>
              t == Trace(FieldEvents(game), true)
    ensures Label(game).Normal? && Prop(game, "path").Str? && Prop(game, "path").s != [] ==>
              var f := files(Prop(game, "path").s);
              && t.events == FieldEvents(game)
                             + [BoolCheck(f.dir.Dir?), BoolCheck(f.index.File?), BoolCheck(f.readme.File?)]
                             + GameInfoEvents(f.gameInfo)
                             + ReadmeEvents(f.readme, Prop(game, "model"))
              && (t.crashed <==> Exists(f.readme) && ReadText(f.readme).None?)
  {
    match Label(game)
    // the label is built before the first test, outside any of them
    case Throw => Trace([], true)
    case Normal(_) =>
      var fields := FieldEvents(game);
      var path := Prop(game, "path");
      if !Truthy(path) then Trace(fields, false)
      else if !path.Str? then
        // `path.resolve` rejects an argument that is not a string
        Trace(fields, true)
      else
        var f := files(path.s);
        var found := fields
          + [BoolCheck(f.dir.Dir?), BoolCheck(f.index.File?), BoolCheck(f.readme.File?)]
          + GameInfoEvents(f.gameInfo);
        Trace(found + ReadmeEvents(f.readme, Prop(game, "model")), Exists(f.readme) && ReadText(f.readme).None?)
  }

  /** The `forEach` over the entries; an uncaught exception ends it and
      the script with it. */
  function GamesTrace(games: seq<Value>, files: string -> GameFiles): (t: Trace)
    ensures t.crashed <==> exists i :: 0 <= i < |games| && GameTrace(games[i], files).crashed
    decreases |games|
  {
    if games == [] then Trace([], false)
    else
      var first := GameTrace(games[0], files);
      if first.crashed then
        first
      else
        var rest := GamesTrace(games[1..], files);
        assert forall i :: 0 < i < |games| ==> games[1..][i - 1] == games[i];
        Trace(first.events + rest.events, rest.crashed)
  }

  /** The failures each entry records on its own, summed over the entries. */
  function EntryFailures(games: seq<Value>, files: string -> GameFiles): nat
    decreases |games|
  {
    if games == [] then 0
    else Failures(GameTrace(games[0], files).events) + EntryFailures(games[1..], files)
  }

  /** Entries are checked independently: when no entry crashes, the loop
      records exactly the sum of the entries' own failures. */
  lemma {:induction false} GamesTraceFailures(games: seq<Value>, files: string -> GameFiles)
    requires !GamesTrace(games, files).crashed
    ensures Failures(GamesTrace(games, files).events) == EntryFailures(games, files)
    decreases |games|
  {
    if games != [] {
      var first := GameTrace(games[0], files);
      assert !first.crashed;
      GamesTraceFailures(games[1..], files);
      FailuresAppend(first.events, GamesTrace(games[1..], files).events);
    }
  }

  /** Each entry's failures are part of the sum. */
  lemma {:induction false} EntryFailuresInclude(games: seq<Value>, files: string -> GameFiles, i: nat)
    requires i < |games|
    ensures EntryFailures(games, files) >= Failures(GameTrace(games[i], files).events)
    decreases i
  {
    if i > 0 {
      assert games[1..][i - 1] == games[i];
      EntryFailuresInclude(games[1..], files, i - 1);
    }
  }

  /** The value `gamesData` holds after test 2: the parsed registry, or
      `undefined` when reading or parsing threw. */
  function GamesData(site: SiteFiles, parse: string -> Option<Value>): Value {
    match ReadText(site.registry)
    case None => Undefined
    case Some(text) =>
      match parse(text)
      case None => Undefined
      case Some(v) => v
  }

  /** `gamesData && Array.isArray(gamesData.games)` */
  function HasGamesArray(data: Value): (r: Value)
    ensures Truthy(r) <==> Truthy(data) && Prop(data, "games").Arr?
    ensures r == Bool(false) <==> data == Bool(false) || (Truthy(data) && !Prop(data, "games").Arr?)
  {
    // `gamesData.games` is only read once `gamesData` is truthy
    if !Truthy(data) then data else Bool(IsArray(Prop(data, "games")))
  }

  /** `gamesData && Array.isArray(gamesData.games)` holds. */
  predicate GamesListed(data: Value) {
    Truthy(data) && Prop(data, "games").Arr?
  }

  /** Tests 1 to 3: the registry exists, parses, and has a `games` array. */
  function RegistryEvents(site: SiteFiles, parse: string -> Option<Value>): (es: seq<Event>)
    ensures |es| == 3
    ensures es[0] == BoolCheck(Exists(site.registry))
    ensures es[1] == Check(Throw) <==> ReadText(site.registry).None?
                                       || parse(ReadText(site.registry).value).None?
    ensures es[1] != Check(Throw) ==> es[1] == BoolCheck(true)
    ensures es[2] == Check(Normal(HasGamesArray(GamesData(site, parse))))
  {
    var parsed :=
      match ReadText(site.registry)
      case None => None
      case Some(text) => parse(text);
    [ BoolCheck(Exists(site.registry)),
      Check(if parsed.Some? then Normal(Bool(true)) else Throw),
      Check(Normal(HasGamesArray(GamesData(site, parse)))) ]
  }

  /** Tests 5 to 9 on the root `index.html`, `README.md`, `AGENTS.md`
      and `.github/workflows`. */
  function SiteEvents(site: SiteFiles): (es: seq<Event>)
    ensures |es| == 7 && DirectFail !in es
    ensures es[0] == BoolCheck(Exists(site.index))
    ensures ReadText(site.index).None? ==> es[1] == es[2] == es[3] == Check(Throw)
    ensures ReadText(site.index).Some? ==>
              var page := ReadText(site.index).value;
              && es[1] == BoolCheck(Includes(page, "<!DOCTYPE html>") && Includes(page, "<html")
                                    && Includes(page, "</html>"))
              && es[2] == BoolCheck(Includes(page, "games.json"))
              && es[3] == BoolCheck(Includes(page, "gameGrid") || Includes(page, "game-grid"))
    ensures es[4..] == [BoolCheck(Exists(site.readme)), BoolCheck(Exists(site.agents)), BoolCheck(site.workflows.Dir?)]
  {
    var page := ReadText(site.index);
    RegistryReferenceAlternativeRedundant(if page.Some? then page.value else "");
    [ BoolCheck(Exists(site.index)),
      Check(if page.None? then Throw
            else Normal(Bool(Includes(page.value, "<!DOCTYPE html>")
                             && Includes(page.value, "<html")
                             && Includes(page.value, "</html>")))),
      Check(if page.None? then Throw
            else Normal(Bool(Includes(page.value, "games.json")
                             || Includes(page.value, "./games.json")))),
      Check(if page.None? then Throw
            else Normal(Bool(Includes(page.value, "gameGrid")
                             || Includes(page.value, "game-grid")))),
      BoolCheck(Exists(site.readme)),
      BoolCheck(Exists(site.agents)),
      BoolCheck(site.workflows.Dir?) ]
  }

  /** The whole script as a trace of events: the registry tests, the
      entries' traces when the registry lists games, and the site-wide
      tests unless an entry crashed the script. */
  function ScriptTrace(site: SiteFiles, parse: string -> Option<Value>, files: string -> GameFiles): (t: Trace)
    ensures var data := GamesData(site, parse);
            var entries := if GamesListed(data) then GamesTrace(Prop(data, "games").elems, files)
                           else Trace([], false);
            && t.crashed == entries.crashed
            && t.events == RegistryEvents(site, parse) + entries.events
                           + (if entries.crashed then [] else SiteEvents(site))
  {
    var data := GamesData(site, parse);
    var games :=
      if GamesListed(data) then GamesTrace(Prop(data, "games").elems, files)
      else Trace([], false);
    var before := RegistryEvents(site, parse) + games.events;
    if games.crashed then Trace(before, true)
    else Trace(before + SiteEvents(site), false)
  }

  /** The counters when the process ends, and whether it ended on an
      uncaught exception. */
  datatype Outcome = Outcome(tally: Tally, crashed: bool)

  function Run(site: SiteFiles, parse: string -> Option<Value>, files: string -> GameFiles): (r: Outcome)
    ensures r.tally.passed + r.tally.failed >= r.tally.total
    ensures r.crashed <==>
              var data := GamesData(site, parse);
              && GamesListed(data)
              && exists i :: 0 <= i < |Prop(data, "games").elems|
                               && GameTrace(Prop(data, "games").elems[i], files).crashed
  {
    var t := ScriptTrace(site, parse, files);
    Balance(t.events);
    Outcome(Replay(Start, t.events), t.crashed)
  }

  /** `process.exit(failedTests > 0 ? 1 : 0)`; an uncaught exception
      ends Node with status 1 before that line. */
  function RunExitCode(o: Outcome): int {
    if o.crashed || o.tally.failed > 0 then 1 else 0
  }

  /** The script exits 0 exactly when it ran to the end and neither a
      test nor a direct `fail` recorded a failure. */
  lemma CleanRunExitsZero(site: SiteFiles, parse: string -> Option<Value>, files: string -> GameFiles)
    ensures var t := ScriptTrace(site, parse, files);
            (RunExitCode(Run(site, parse, files)) == 0)
              <==> (!t.crashed && FailingChecks(t.events) == 0 && DirectFails(t.events) == 0)
  {
    ReplayCounts(Start, ScriptTrace(site, parse, files).events);
  }

  /** When the registry cannot be read or parsed, `gamesData` stays
      `undefined`: test 2 fails, test 3 returns `undefined` and so passes,
      no entry is checked, and the site-wide tests follow. */
  lemma UnparsedRegistry(site: SiteFiles, parse: string -> Option<Value>, files: string -> GameFiles)
    requires ReadText(site.registry).None? || parse(ReadText(site.registry).value).None?
    ensures ScriptTrace(site, parse, files).events
              == [BoolCheck(Exists(site.registry)), Check(Throw), Check(Normal(Undefined))] + SiteEvents(site)
    ensures !Failing(Normal(Undefined))
  {
  }

  /** An entry whose label cannot be built (a `null` entry, or an `id`
      that cannot become text) ends the script on an uncaught TypeError,
      with status 1, before the site-wide tests. */
  lemma UnlabelledEntryCrashes(site: SiteFiles, parse: string -> Option<Value>, files: string -> GameFiles, i: nat)
    requires var data := GamesData(site, parse);
             && GamesListed(data)
             && i < |Prop(data, "games").elems|
             && Label(Prop(data, "games").elems[i]).Throw?
    ensures Run(site, parse, files).crashed
    ensures RunExitCode(Run(site, parse, files)) == 1
  {
    var games := Prop(GamesData(site, parse), "games").elems;
    assert GameTrace(games[i], files).crashed;
  }

  /** The labels that crash: a `null` entry, and an `id` object with its
      own `toString` key, bare or inside an array. */
  lemma UnlabelledEntries()
    ensures Label(Null).Throw?
    ensures Label(Obj(map["id" := Obj(map["toString" := Num(Finite(0.0))])])).Throw?
    ensures Label(Obj(map["id" := Arr([Str("a"), Obj(map["toString" := Null])])])).Throw?
    ensures Label(Obj(map["id" := Obj(map["valueOf" := Null])])).Normal?
  {
    var inner := Obj(map["toString" := Null]);
    assert Arr([Str("a"), inner]).elems[1] == inner;
  }

  /** `content.includes('./games.json')` implies
      `content.includes('games.json')`, so the second alternative of the
      "loads games.json" predicate never decides it. */
  lemma RegistryReferenceAlternativeRedundant(content: string)
    ensures (Includes(content, "games.json") || Includes(content, "./games.json"))
              == Includes(content, "games.json")
  {
    if Includes(content, "./games.json") {
      assert "./games.json"[2..] == "games.json";
      IncludesSuffix(content, "./games.json", 2);
    }
  }

  /** An entry whose nine fields pass. */
  predicate FieldsPass(game: Value)
    requires !Nullish(game)
  {
    forall k :: 0 <= k < 9 ==> FieldResults(game)[k] != Bool(false)
  }

  /** An entry with good fields whose directory is absent fails exactly
      the three directory tests and no other. */
  lemma MissingDirectory(game: Value, files: string -> GameFiles)
    requires !Nullish(game) && FieldsPass(game)
    requires Prop(game, "path").Str? && Prop(game, "path").s != []
    requires files(Prop(game, "path").s) == GameFiles(Missing, Missing, Missing, Missing)
    ensures var t := GameTrace(game, files);
            && !t.crashed && |t.events| == 12
            && forall k :: 0 <= k < 12 ==> t.events[k].Check? && (Failing(t.events[k].c) <==> 9 <= k)
  {
    // a passing `id` check leaves a string or a falsy value, which converts
    assert FieldResults(game)[0] == NonBlankCheck(Prop(game, "id")) != Bool(false);
    assert !ToStringThrows(Prop(game, "id"));
  }

  /** An unreadable `game-info.yaml` is recorded by a direct `fail`, so
      the entry's failures outnumber its counted tests' share. */
  lemma UnreadableGameInfo(game: Value, files: string -> GameFiles)
    requires Label(game).Normal? && Prop(game, "path").Str? && Prop(game, "path").s != []
    requires Exists(files(Prop(game, "path").s).gameInfo)
    requires ReadText(files(Prop(game, "path").s).gameInfo).None?
    ensures DirectFail in GameTrace(game, files).events
    ensures var es := GameTrace(game, files).events;
            Replay(Start, es).passed + Replay(Start, es).failed > Replay(Start, es).total
  {
    var f := files(Prop(game, "path").s);
    var es := GameTrace(game, files).events;
    var info := GameInfoEvents(f.gameInfo);
    assert DirectFail in info;
    assert DirectFail in es;
    DirectFailOvercounts(es);
  }

  /** A listed entry with a failing test, or a direct `fail`, makes the
      run exit with status 1, whatever the other entries do. */
  lemma FailingEntryFailsRun(site: SiteFiles, parse: string -> Option<Value>, files: string -> GameFiles, i: nat)
    requires var data := GamesData(site, parse);
             && GamesListed(data)
             && i < |Prop(data, "games").elems|
             && Failures(GameTrace(Prop(data, "games").elems[i], files).events) > 0
    ensures RunExitCode(Run(site, parse, files)) == 1
  {
    var games := Prop(GamesData(site, parse), "games").elems;
    var entries := GamesTrace(games, files);
    CleanRunExitsZero(site, parse, files);
    if !entries.crashed {
      GamesTraceFailures(games, files);
      EntryFailuresInclude(games, files, i);
      var reg := RegistryEvents(site, parse);
      FailuresAppend(reg, entries.events);
      FailuresAppend(reg + entries.events, SiteEvents(site));
    }
  }
}
