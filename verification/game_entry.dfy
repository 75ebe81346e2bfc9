/** The structure validator's checks over one parsed `games.json` entry:
    the nine field predicates and the README AI-mention predicate, each
    returning the JavaScript value the predicate returns. */
module GameEntry {
  import opened JsValue
  import opened JsString

  /** `v && typeof v === 'string' && v.trim() !== ''`, the `id` and
      `name` predicate. The harness fails it only on the boolean `false`. */
  function NonBlankCheck(v: Value): (r: Value)
    ensures r == Bool(false) <==>
              || v == Bool(false)
              || (Truthy(v) && !v.Str?)
              || (v.Str? && v.s != [] && Blank(v.s))
    ensures !Truthy(v) ==> r == v
  {
    var guard := And(v, Bool(TypeOf(v) == "string"));
    // `&&` only calls `v.trim()` once the guard is truthy: a non-empty string
    if !Truthy(guard) then guard else Bool(Trim(v.s) != "")
  }

  /** `v && typeof v === 'string'`, the predicate of `description`,
      `status`, `path`, `createdWith` and `model`. */
  function StringCheck(v: Value): (r: Value)
    ensures r == Bool(false) <==> v == Bool(false) || (Truthy(v) && !v.Str?)
    ensures v.Str? ==> r != Bool(false)
    ensures !Truthy(v) ==> r == v
  {
    And(v, Bool(TypeOf(v) == "string"))
  }

  /** `Array.isArray(v)`, the `prLinks` predicate. */
  function ArrayCheck(v: Value): (r: Value)
    ensures r == Bool(false) <==> !v.Arr?
    ensures r == Bool(true) <==> v.Arr?
  {
    Bool(IsArray(v))
  }

  /** The `prCount` predicate: `true` for an absent field, otherwise
      `typeof v === 'number' && v >= 0`. */
  function CountCheck(v: Value): (r: Value)
    ensures r == Bool(false) <==> v != Undefined && !(v.Num? && AtLeastZero(v.n))
    ensures r == Bool(true) <==> v == Undefined || (v.Num? && AtLeastZero(v.n))
  {
    if v != Undefined then
      // `&&` only evaluates `v >= 0` when `v` is a number
      if TypeOf(v) != "number" then Bool(false) else Bool(AtLeastZero(v.n))
    else Bool(true)
  }

  /** `null`, strings, negative numbers and NaN all fail the `prCount` check. */
  lemma CountCheckRejects(s: string, x: real)
    requires x < 0.0
    ensures CountCheck(Null) == Bool(false)
    ensures CountCheck(Str(s)) == Bool(false)
    ensures CountCheck(Num(Finite(x))) == Bool(false)
    ensures CountCheck(Num(NaN)) == Bool(false)
  {
  }

  /** The fields checked for every entry, in the order they are tested. */
  const Fields: seq<string> :=
    ["id", "name", "description", "status", "path", "createdWith", "model", "prLinks", "prCount"]

  /** The predicate applied to the value of field `key`. */
  function FieldCheck(key: string, v: Value): (r: Value)
    ensures key in {"id", "name"} ==> r == NonBlankCheck(v)
    ensures key in {"description", "status", "path", "createdWith", "model"} ==> r == StringCheck(v)
    ensures key == "prLinks" ==> r == ArrayCheck(v)
    ensures key == "prCount" ==> r == CountCheck(v)
  {
    if key == "id" || key == "name" then NonBlankCheck(v)
    else if key == "prLinks" then ArrayCheck(v)
    else if key == "prCount" then CountCheck(v)
    else StringCheck(v)
  }

  /** The nine results, one per field of `Fields`, for an entry that
      has properties. */
  function FieldResults(game: Value): (r: seq<Value>)
    requires !Nullish(game)
    ensures |r| == |Fields| == 9
    ensures forall k :: 0 <= k < |Fields| ==> r[k] == FieldCheck(Fields[k], Prop(game, Fields[k]))
  {
    seq(|Fields|, k requires 0 <= k < |Fields| => FieldCheck(Fields[k], Prop(game, Fields[k])))
  }

  /** An entry that is not an object has no fields: every check sees
      `undefined`, so only `prLinks` fails. */
  lemma NonObjectEntry(game: Value)
    requires !Nullish(game) && !game.Obj?
    ensures forall k :: 0 <= k < 9 ==> (FieldResults(game)[k] == Bool(false) <==> k == 7)
  {
    forall k | 0 <= k < 9
      ensures FieldResults(game)[k] == Bool(false) <==> k == 7
    {
      assert Prop(game, Fields[k]) == Undefined;
    }
  }

  /** The `${game.id || 'unknown'}` part of every label of an entry,
      built outside any test: reading `id` throws on a `null` or
      `undefined` entry, and turning the chosen value into text throws
      for the values `ToStringThrows` names. */
  function Label(game: Value): (r: Completion)
    ensures r.Throw? <==> Nullish(game) || ToStringThrows(Prop(game, "id"))
    ensures r.Normal? && Truthy(Prop(game, "id")) ==> r.v == Prop(game, "id")
    ensures r.Normal? && !Truthy(Prop(game, "id")) ==> r.v == Str("unknown")
  {
    match Get(game, "id")
    case Throw => Throw
    case Normal(id) =>
      var shown := Or(id, Str("unknown"));
      if ToStringThrows(shown) then Throw else Normal(shown)
  }

  /** The lowered README mentions "built with", "ai" or "copilot". */
  predicate MentionsAi(content: string) {
    Includes(content, "built with") || Includes(content, "ai") || Includes(content, "copilot")
  }

  /** The README predicate given the raw README text and `game.model`:
      `hasGeneralAI || hasModel`, where `hasModel` is
      `game.model && readmeContent.includes(game.model.toLowerCase())`
      and is evaluated before the `||`, so its TypeError on a truthy
      non-string model is raised whatever the README says. */
  function ReadmeCheck(readme: string, model: Value): (r: Completion)
    ensures r == Throw <==> Truthy(model) && !model.Str?
    ensures r == Normal(Bool(false)) <==>
              && !MentionsAi(Lower(readme))
              && (|| model == Bool(false)
                  || (model.Str? && model.s != [] && !Includes(Lower(readme), Lower(model.s))))
  {
    var content := Lower(readme);
    var hasGeneralAi := Bool(MentionsAi(content));
    var hasModel :=
      if !Truthy(model) then Normal(model)
      else if model.Str? then Normal(Bool(Includes(content, Lower(model.s))))
      else Throw;
    match hasModel
    case Throw => Throw
    case Normal(m) => Normal(Or(hasGeneralAi, m))
  }

  /** A falsy model other than `false` makes the predicate return a
      non-`false` value, so the check cannot fail; with `false` it fails
      whenever the README has no general AI marker. */
  lemma ReadmeFalsyModel(readme: string, model: Value)
    requires !Truthy(model)
    ensures model != Bool(false) ==> ReadmeCheck(readme, model).Normal?
                                     && ReadmeCheck(readme, model).v != Bool(false)
    ensures model == Bool(false) ==>
              (ReadmeCheck(readme, model) == Normal(Bool(false)) <==> !MentionsAi(Lower(readme)))
  {
  }

  /** The model name is matched case-insensitively: the check passes
      whenever the raw README shows the name in any ASCII casing. */
  lemma ReadmeFindsModel(readme: string, name: string, shown: string)
    requires name != []
    requires Includes(readme, shown) && Lower(shown) == Lower(name)
    ensures ReadmeCheck(readme, Str(name)) == Normal(Bool(true))
  {
    LowerKeepsIncludes(readme, shown);
  }
}
