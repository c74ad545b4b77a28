/** The catalog proxy of server/index.js: the `mapMeal` normaliser and the result shaping of
    `GET /api/search` and `GET /api/random`. The upstream request and its JSON parsing are
    I/O; each handler receives what they produced as a parameter. */
module Catalog {
  import opened JsValues
  import opened Http

  /** The canonical recipe shape `{id, title, thumb, source}`. */
  datatype Recipe = Recipe(id: JsValue, title: JsValue, thumb: JsValue, source: JsValue)

  /** Why the upstream exchange produced no parsed body: `fetch` rejected (network) or
      `r.json()` rejected (the body was not JSON). The HTTP status is never inspected. */
  datatype FetchFailure = NetworkError | InvalidJson

  /** The reference rule for `a || b || ... || default`: the first truthy value, else the
      default. */
  function FirstTruthy(vals: seq<JsValue>, default: JsValue): (r: JsValue)
    ensures forall i ::
              (0 <= i < |vals| && Truthy(vals[i]) && forall j :: 0 <= j < i ==> !Truthy(vals[j]))
              ==> r == vals[i]
    ensures (forall j :: 0 <= j < |vals| ==> !Truthy(vals[j])) ==> r == default
  {
    if vals == [] then default
    else if Truthy(vals[0]) then vals[0]
    else FirstTruthy(vals[1..], default)
  }

  /** `mapMeal(m)`: `id` and `title` are `idMeal` and `strMeal` as they are; `thumb` is
      `strMealThumb || ""` and `source` is `strSource || strYoutube || ""`, so an empty
      string counts as missing and those two fields are always truthy or exactly "".
      Reading a property of a null or undefined meal throws. */
  function MapMeal(m: JsValue): (r: Result<Recipe, TypeError>)
    ensures r.Err? <==> Nullish(m)
    ensures r.Ok? ==> r.value.id == Prop(m, "idMeal") && r.value.title == Prop(m, "strMeal")
    ensures r.Ok? ==> r.value.thumb == FirstTruthy([Prop(m, "strMealThumb")], Str(""))
    ensures r.Ok? ==> r.value.source
                      == FirstTruthy([Prop(m, "strSource"), Prop(m, "strYoutube")], Str(""))
    ensures r.Ok? ==> (Truthy(r.value.thumb) || r.value.thumb == Str(""))
                      && (Truthy(r.value.source) || r.value.source == Str(""))
  {
    if Nullish(m) then Err(CannotReadProperty("idMeal"))
    else
      var source := Or(Or(Prop(m, "strSource"), Prop(m, "strYoutube")), Str(""));
      assert [Prop(m, "strSource"), Prop(m, "strYoutube")][1..] == [Prop(m, "strYoutube")];
      Ok(Recipe(Prop(m, "idMeal"), Prop(m, "strMeal"), Or(Prop(m, "strMealThumb"), Str("")), source))
  }

  /** `meals.map(mapMeal)`: every element mapped in order, or the TypeError of the first
      null or undefined element. */
  function MapMeals(meals: seq<JsValue>): (r: Result<seq<Recipe>, TypeError>)
    ensures r.Ok? <==> forall i :: 0 <= i < |meals| ==> !Nullish(meals[i])
    ensures r.Ok? ==> |r.value| == |meals|
                      && forall i :: 0 <= i < |meals| ==> r.value[i] == MapMeal(meals[i]).value
  {
    if meals == [] then Ok([])
    else
      match MapMeal(meals[0])
      case Err(e) => Err(e)
      case Ok(first) =>
        match MapMeals(meals[1..])
        case Err(e) => Err(e)
        case Ok(rest) => Ok([first] + rest)
  }

  /** `(req.query.q || "").trim()`: a missing or empty query becomes "", a string is
      trimmed, and any other truthy value (an array from a repeated `q`) has no `trim`. */
  function QueryText(q: JsValue): (r: Result<string, TypeError>)
    ensures r.Err? <==> Truthy(q) && !q.Str?
    ensures r.Ok? ==> (r.value == "" <==> !Truthy(q) || Blank(q.s))
    ensures q.Str? ==> r == Ok(Trim(q.s))
    ensures !Truthy(q) ==> r == Ok("")
  {
    match Or(q, Str(""))
    case Str(s) => Ok(Trim(s))
    case _ => Err(NotAFunction("trim"))
  }

  /** `Array.isArray(j.meals) ? j.meals.map(mapMeal) : []` */
  function SearchItems(j: JsValue): Result<seq<Recipe>, TypeError>
  {
    match Get(j, "meals")
    case Err(e) => Err(e)
    case Ok(meals) => if meals.Arr? then MapMeals(meals.elems) else Ok([])
  }

  /** One `GET /api/search` exchange: the query text sent upstream, if any, and the reply. */
  datatype SearchExchange = SearchExchange(upstreamQuery: Option<string>, reply: Reply<seq<Recipe>>)

  const SearchFailed := "search failed"
  const RandomFailed := "random failed"

  /** `GET /api/search?q=...` given the query parameter and what the upstream search
      would yield. A blank query is answered with `[]` and nothing is sent upstream; a
      non-blank one is sent trimmed, and its `meals` array is normalised element by element
      (a non-array `meals` gives `[]`). Every exception becomes 500 "search failed". */
  function Search(q: JsValue, upstream: Result<JsValue, FetchFailure>): (x: SearchExchange)
    ensures QueryText(q) == Ok("") ==> x == SearchExchange(None, Json([]))
    ensures x.upstreamQuery.Some? <==> QueryText(q).Ok? && QueryText(q).value != ""
    ensures x.upstreamQuery.Some? ==> x.upstreamQuery.value == QueryText(q).value
    ensures x.reply.ServerError? <==>
              QueryText(q).Err?
              || (x.upstreamQuery.Some? && (upstream.Err? || Nullish(upstream.value)
                  || (Prop(upstream.value, "meals").Arr?
                      && exists i :: 0 <= i < |Prop(upstream.value, "meals").elems|
                                     && Nullish(Prop(upstream.value, "meals").elems[i]))))
    ensures x.reply.ServerError? ==> x.reply.error == SearchFailed
    ensures !x.reply.BadRequest?
    ensures x.reply.Json? && x.upstreamQuery.Some? ==>
              var meals := Prop(upstream.value, "meals");
              if meals.Arr? then
                |x.reply.body| == |meals.elems|
                && forall i :: 0 <= i < |meals.elems| ==> x.reply.body[i] == MapMeal(meals.elems[i]).value
              else x.reply.body == []
  {
    match QueryText(q)
    case Err(_) => SearchExchange(None, ServerError(SearchFailed))
    case Ok(text) =>
      if text == "" then SearchExchange(None, Json([]))
      else SearchExchange(Some(text), SearchReply(upstream))
  }

  /** The reply to a non-blank search, given what the upstream search yielded: the
      normalised `meals` in order (`[]` when `meals` is not an array), or 500 "search failed"
      when the exchange failed, the body is null or a meal is null. */
  function SearchReply(upstream: Result<JsValue, FetchFailure>): (r: Reply<seq<Recipe>>)
    ensures r.ServerError? <==>
              upstream.Err? || Nullish(upstream.value)
              || (Prop(upstream.value, "meals").Arr?
                  && exists i :: 0 <= i < |Prop(upstream.value, "meals").elems|
                                 && Nullish(Prop(upstream.value, "meals").elems[i]))
    ensures r.ServerError? ==> r.error == SearchFailed
    ensures !r.BadRequest?
    ensures r.Json? ==>
              var meals := Prop(upstream.value, "meals");
              if meals.Arr? then
                |r.body| == |meals.elems|
                && forall i :: 0 <= i < |meals.elems| ==> r.body[i] == MapMeal(meals.elems[i]).value
              else r.body == []
  {
    match upstream
    case Err(_) => ServerError(SearchFailed)
    case Ok(j) =>
      match SearchItems(j)
      case Err(_) => ServerError(SearchFailed)
      case Ok(items) => Json(items)
  }

  /** A missing query, or one made of whitespace only, is answered with `[]` whatever the
      upstream would have said, and nothing is sent upstream. */
  lemma BlankQueryShortCircuits(q: JsValue, upstream: Result<JsValue, FetchFailure>)
    requires q.Undefined? || q.Null? || (q.Str? && Blank(q.s))
    ensures Search(q, upstream) == SearchExchange(None, Json([]))
  {
  }

  /** `GET /api/random` given what the upstream random pick would yield: the first meal
      normalised when `meals` is an array whose first element is truthy, `null` otherwise
      (an empty array included); 500 "random failed" when the exchange failed or the body
      is `null`. */
  function Random(upstream: Result<JsValue, FetchFailure>): (r: Reply<Option<Recipe>>)
    ensures r.Json? <==> upstream.Ok? && !Nullish(upstream.value)
    ensures !r.Json? ==> r == ServerError(RandomFailed)
    ensures r.Json? ==>
              var meals := Prop(upstream.value, "meals");
              (r.body.Some? <==> meals.Arr? && |meals.elems| > 0 && Truthy(meals.elems[0]))
              && (r.body.Some? ==> r.body.value == MapMeal(meals.elems[0]).value)
  {
    match upstream
    case Err(_) => ServerError(RandomFailed)
    case Ok(j) =>
      match Get(j, "meals")
      case Err(_) => ServerError(RandomFailed)
      case Ok(meals) =>
        var first := if meals.Arr? && |meals.elems| > 0 then meals.elems[0] else Undefined;
        if meals.Arr? && Truthy(first) then
          match MapMeal(first)
          case Ok(recipe) => Json(Some(recipe))
          case Err(_) => ServerError(RandomFailed)
        else Json(None)
  }
}
