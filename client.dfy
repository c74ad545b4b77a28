/** The pure parts of the page client/src/App.jsx: how `save` builds its payload, how the
    favorites list and `RecipeCard` pick what to show, the guards applied to the JSON the
    server sends back, when the two buttons are enabled and when an edit is sent. All of
    them use `??`, so only null and undefined count as missing. */
module Client {
  import opened JsValues

  /** The reference rule for `a ?? b ?? ... ?? default`: the first value that is neither
      null nor undefined, else the default. */
  function FirstDefined(vals: seq<JsValue>, default: JsValue): (r: JsValue)
    ensures forall i ::
              (0 <= i < |vals| && !Nullish(vals[i]) && forall j :: 0 <= j < i ==> Nullish(vals[j]))
              ==> r == vals[i]
    ensures (forall j :: 0 <= j < |vals| ==> Nullish(vals[j])) ==> r == default
  {
    if vals == [] then default
    else if !Nullish(vals[0]) then vals[0]
    else FirstDefined(vals[1..], default)
  }

  /** When one of `vals` is present, the default of `FirstDefined` plays no part. */
  lemma {:induction false} FirstDefinedIgnoresDefault(vals: seq<JsValue>, d1: JsValue, d2: JsValue, k: nat)
    requires k < |vals| && !Nullish(vals[k])
    ensures FirstDefined(vals, d1) == FirstDefined(vals, d2)
    ensures !Nullish(FirstDefined(vals, d1))
  {
    if Nullish(vals[0]) {
      FirstDefinedIgnoresDefault(vals[1..], d1, d2, k - 1);
    }
  }

  /** `a ?? b ?? default`, grouped as JavaScript groups it: `(a ?? b) ?? default`. */
  function Coalesce2(a: JsValue, b: JsValue, default: JsValue): (r: JsValue)
    ensures r == FirstDefined([a, b], default)
  {
    assert [a, b][1..] == [b];
    Coalesce(Coalesce(a, b), default)
  }

  /** `a ?? b ?? c ?? default`, grouped as `((a ?? b) ?? c) ?? default`. */
  function Coalesce3(a: JsValue, b: JsValue, c: JsValue, default: JsValue): (r: JsValue)
    ensures r == FirstDefined([a, b, c], default)
  {
    assert [a, b, c][1..] == [b, c] && [b, c][1..] == [c];
    assert FirstDefined([b, c], default) == Coalesce(b, Coalesce(c, default));
    Coalesce(Coalesce(Coalesce(a, b), c), default)
  }

  /** The body `save` posts. */
  datatype Payload = Payload(id: JsValue, title: JsValue, thumb: JsValue, source: JsValue)

  /** `{id: item.id ?? item.idMeal ?? "", title: item.title ?? item.name ?? item.strMeal ?? "",
      thumb: item.thumb ?? item.image ?? item.strMealThumb ?? "", source: item.source ??
      item.link ?? ""}`. Every field is present afterwards; an empty-string `id` is kept
      rather than passed over, and `strYoutube` is never read. `save` reads `item.id`
      without `?.`, so a null item throws. */
  function SavePayload(item: JsValue): (r: Result<Payload, TypeError>)
    ensures r.Err? <==> Nullish(item)
    ensures r.Ok? ==> r.value.id == FirstDefined([Prop(item, "id"), Prop(item, "idMeal")], Str(""))
    ensures r.Ok? ==> r.value.title
                      == FirstDefined([Prop(item, "title"), Prop(item, "name"), Prop(item, "strMeal")], Str(""))
    ensures r.Ok? ==> r.value.thumb
                      == FirstDefined([Prop(item, "thumb"), Prop(item, "image"), Prop(item, "strMealThumb")], Str(""))
    ensures r.Ok? ==> r.value.source == FirstDefined([Prop(item, "source"), Prop(item, "link")], Str(""))
    ensures r.Ok? ==> !Nullish(r.value.id) && !Nullish(r.value.title)
                      && !Nullish(r.value.thumb) && !Nullish(r.value.source)
  {
    if Nullish(item) then Err(CannotReadProperty("id"))
    else
      Ok(Payload(
        Coalesce2(Prop(item, "id"), Prop(item, "idMeal"), Str("")),
        Coalesce3(Prop(item, "title"), Prop(item, "name"), Prop(item, "strMeal"), Str("")),
        Coalesce3(Prop(item, "thumb"), Prop(item, "image"), Prop(item, "strMealThumb"), Str("")),
        Coalesce2(Prop(item, "source"), Prop(item, "link"), Str(""))))
  }

  /** The payload as the JSON object `JSON.stringify` sends: all four keys are present. */
  function PayloadJson(p: Payload): JsValue
  {
    Obj(map["id" := p.id, "title" := p.title, "thumb" := p.thumb, "source" := p.source])
  }

  /** What a card shows: its heading, its image URL (none when falsy) and its source link
      (none when falsy). */
  datatype Display = Display(title: JsValue, thumb: JsValue, link: JsValue)

  const NoTitle := "(no title)"

  /** `RecipeCard`'s fallbacks, written with `?.`: the same alias chains as the payload,
      except that a missing title shows as "(no title)". */
  function CardDisplay(item: JsValue): (d: Display)
    ensures d.title
            == FirstDefined([Prop(item, "title"), Prop(item, "name"), Prop(item, "strMeal")], Str(NoTitle))
    ensures d.thumb
            == FirstDefined([Prop(item, "thumb"), Prop(item, "image"), Prop(item, "strMealThumb")], Str(""))
    ensures d.link == FirstDefined([Prop(item, "source"), Prop(item, "link")], Str(""))
  {
    Display(
      Coalesce3(Prop(item, "title"), Prop(item, "name"), Prop(item, "strMeal"), Str(NoTitle)),
      Coalesce3(Prop(item, "thumb"), Prop(item, "image"), Prop(item, "strMealThumb"), Str("")),
      Coalesce2(Prop(item, "source"), Prop(item, "link"), Str("")))
  }

  /** The favorites list's fallbacks: the same chains written with `f.title` rather than
      `f?.title`, so a null entry throws while rendering. */
  function FavoriteDisplay(f: JsValue): (r: Result<Display, TypeError>)
    ensures r.Err? <==> Nullish(f)
    ensures r.Ok? ==> r.value.title
                      == FirstDefined([Prop(f, "title"), Prop(f, "name"), Prop(f, "strMeal")], Str(NoTitle))
    ensures r.Ok? ==> r.value.thumb
                      == FirstDefined([Prop(f, "thumb"), Prop(f, "image"), Prop(f, "strMealThumb")], Str(""))
    ensures r.Ok? ==> r.value.link == FirstDefined([Prop(f, "source"), Prop(f, "link")], Str(""))
  {
    if Nullish(f) then Err(CannotReadProperty("title")) else Ok(CardDisplay(f))
  }

  /** A card shows the thumb and link that saving it would post, and the title it would
      post unless no title alias is present, when it shows "(no title)" and posts "". */
  lemma DisplayAgreesWithPayload(item: JsValue)
    requires !Nullish(item)
    ensures CardDisplay(item).thumb == SavePayload(item).value.thumb
    ensures CardDisplay(item).link == SavePayload(item).value.source
    ensures Nullish(Prop(item, "title")) && Nullish(Prop(item, "name")) && Nullish(Prop(item, "strMeal"))
            ==> CardDisplay(item).title == Str(NoTitle) && SavePayload(item).value.title == Str("")
    ensures !(Nullish(Prop(item, "title")) && Nullish(Prop(item, "name")) && Nullish(Prop(item, "strMeal")))
            ==> CardDisplay(item).title == SavePayload(item).value.title
  {
    var titles := [Prop(item, "title"), Prop(item, "name"), Prop(item, "strMeal")];
    if !Nullish(titles[0]) {
      FirstDefinedIgnoresDefault(titles, Str(NoTitle), Str(""), 0);
    } else if !Nullish(titles[1]) {
      FirstDefinedIgnoresDefault(titles, Str(NoTitle), Str(""), 1);
    } else if !Nullish(titles[2]) {
      FirstDefinedIgnoresDefault(titles, Str(NoTitle), Str(""), 2);
    }
  }

  /** `Array.isArray(data) ? data : []`, applied to the search and favorites responses. */
  function ArrayOrEmpty(data: JsValue): (r: seq<JsValue>)
    ensures data.Arr? ==> r == data.elems
    ensures !data.Arr? ==> r == []
  {
    match data
    case Arr(elems) => elems
    case _ => []
  }

  /** `data || null`, applied to the random response: a truthy response is kept as it is
      and any falsy one becomes null. */
  function TruthyOrNull(data: JsValue): (r: JsValue)
    ensures Truthy(r) || r == Null
    ensures Truthy(data) ==> r == data
    ensures !Truthy(data) ==> r == Null
  {
    Or(data, Null)
  }

  /** The Search button (`disabled={loading || !q.trim()}`) is enabled exactly when no
      request is in flight and the query has a non-whitespace character. */
  function SearchEnabled(loading: bool, q: string): (r: bool)
    ensures r <==> !loading && exists i :: 0 <= i < |q| && !IsWhitespace(q[i])
  {
    !(loading || Trim(q) == "")
  }

  /** The Random button (`disabled={loading}`) is enabled exactly when no request is in
      flight, and whenever the Search button is. */
  function RandomEnabled(loading: bool): (r: bool)
    ensures r <==> !loading
    ensures forall q :: SearchEnabled(loading, q) ==> r
  {
    !loading
  }

  /** The Edit button: `prompt` answers a string, or null when cancelled, and the update
      is sent only for a non-empty answer (`if (!newTitle) return;`). */
  function EditTitle(answer: Option<string>): (r: Option<string>)
    ensures r.Some? <==> answer.Some? && answer.value != ""
    ensures r.Some? ==> r == answer
  {
    match answer
    case None => None
    case Some(title) => if title == "" then None else Some(title)
  }
}
