/** How the page and the server fit together: what the page receives as JSON from the
    handlers of server/index.js, and what the server does with what the page sends.
    JSON serialisation is modelled only as far as these shapes need: `JSON.stringify`
    drops object keys whose value is undefined. */
module Interplay {
  import opened JsValues
  import opened Http
  import Catalog
  import Favorites
  import Client

  /** A normalised recipe as the page receives it. */
  function RecipeJson(r: Catalog.Recipe): JsValue
  {
    var fields := map["id" := r.id, "title" := r.title, "thumb" := r.thumb, "source" := r.source];
    Obj(map k | k in fields && !fields[k].Undefined? :: fields[k])
  }

  /** Reading a received recipe gives back its four fields, and nothing under any other
      key. */
  lemma RecipeJsonFields(r: Catalog.Recipe, key: string)
    ensures Prop(RecipeJson(r), "id") == r.id && Prop(RecipeJson(r), "title") == r.title
    ensures Prop(RecipeJson(r), "thumb") == r.thumb && Prop(RecipeJson(r), "source") == r.source
    ensures key !in {"id", "title", "thumb", "source"} ==> Prop(RecipeJson(r), key) == Undefined
  {
  }

  /** The reply of `GET /api/random` as the page receives it: a recipe or `null`. */
  function PickJson(pick: Option<Catalog.Recipe>): JsValue
  {
    match pick
    case None => Null
    case Some(r) => RecipeJson(r)
  }

  /** A stored TEXT value as JSON: NULL becomes `null`. */
  function TextJson(v: Favorites.SqlText): JsValue
  {
    match v
    case Text(s) => Str(s)
    case SqlNull => Null
  }

  /** A favorite as `GET /api/favorites` sends it. The timestamp is modelled as a number. */
  function FavoriteJson(f: Favorites.Favorite): JsValue
  {
    Obj(map["id" := Str(f.id), "title" := Str(f.title), "thumb" := TextJson(f.thumb),
            "source" := TextJson(f.source), "saved_at" := Num(f.savedAt)])
  }

  /** Saving a search result or the random pick posts the meal's `idMeal` and `strMeal`
      (or "" when missing) and exactly the thumb and source `mapMeal` chose, so the
      `strYoutube` fallback reaches a favorite only through the server's normaliser. */
  lemma SaveOfNormalisedMeal(m: JsValue)
    requires !Nullish(m)
    ensures var r := Catalog.MapMeal(m).value;
            var p := Client.SavePayload(RecipeJson(r));
            && p.Ok?
            && p.value.id == Coalesce(Prop(m, "idMeal"), Str(""))
            && p.value.title == Coalesce(Prop(m, "strMeal"), Str(""))
            && p.value.thumb == r.thumb
            && p.value.source == r.source
  {
    var r := Catalog.MapMeal(m).value;
    SaveOfRecipe(r);
    assert !Nullish(r.thumb) && !Nullish(r.source);
  }

  /** Saving a received recipe posts its own four fields, "" standing for a missing one. */
  lemma SaveOfRecipe(r: Catalog.Recipe)
    ensures Client.SavePayload(RecipeJson(r))
            == Ok(Client.Payload(Coalesce(r.id, Str("")), Coalesce(r.title, Str("")),
                                 Coalesce(r.thumb, Str("")), Coalesce(r.source, Str(""))))
  {
    var v := RecipeJson(r);
    RecipeJsonFields(r, "idMeal");
    RecipeJsonFields(r, "name");
    RecipeJsonFields(r, "strMeal");
    RecipeJsonFields(r, "image");
    RecipeJsonFields(r, "strMealThumb");
    RecipeJsonFields(r, "link");
    assert Client.Coalesce2(r.id, Undefined, Str("")) == Coalesce(r.id, Str(""));
    assert Client.Coalesce3(r.title, Undefined, Undefined, Str("")) == Coalesce(r.title, Str(""));
    assert Client.Coalesce3(r.thumb, Undefined, Undefined, Str("")) == Coalesce(r.thumb, Str(""));
    assert Client.Coalesce2(r.source, Undefined, Str("")) == Coalesce(r.source, Str(""));
  }

  /** A meal with a non-empty string id and name, whose thumb and source fields are strings
      or missing, is accepted by `POST /api/favorites` under that id and title, with
      non-NULL thumb and source. */
  lemma NormalisedMealIsAccepted(m: JsValue, id: string, title: string)
    requires !Nullish(m)
    requires Prop(m, "idMeal") == Str(id) && id != ""
    requires Prop(m, "strMeal") == Str(title) && title != ""
    requires Prop(m, "strMealThumb").Str? || Nullish(Prop(m, "strMealThumb"))
    requires Prop(m, "strSource").Str? || Nullish(Prop(m, "strSource"))
    requires Prop(m, "strYoutube").Str? || Nullish(Prop(m, "strYoutube"))
    ensures var p := Client.SavePayload(RecipeJson(Catalog.MapMeal(m).value)).value;
            var ins := Favorites.PostRequest(Client.PayloadJson(p));
            ins.Ok? && ins.value.id == id && ins.value.title == title
            && ins.value.thumb.Text? && ins.value.source.Text?
  {
    var r := Catalog.MapMeal(m).value;
    SaveOfNormalisedMeal(m);
    NormalisedLinksAreStrings(m);
    StringPayloadAccepted(id, title, r.thumb.s, r.source.s);
  }

  /** `mapMeal` turns thumb and source fields that are strings or missing into strings. */
  lemma NormalisedLinksAreStrings(m: JsValue)
    requires !Nullish(m)
    requires Prop(m, "strMealThumb").Str? || Nullish(Prop(m, "strMealThumb"))
    requires Prop(m, "strSource").Str? || Nullish(Prop(m, "strSource"))
    requires Prop(m, "strYoutube").Str? || Nullish(Prop(m, "strYoutube"))
    ensures Catalog.MapMeal(m).value.thumb.Str? && Catalog.MapMeal(m).value.source.Str?
  {
  }

  /** A payload of four strings with a non-empty id and title is stored as sent. */
  lemma StringPayloadAccepted(id: string, title: string, thumb: string, source: string)
    requires id != "" && title != ""
    ensures Favorites.PostRequest(Client.PayloadJson(Client.Payload(Str(id), Str(title), Str(thumb), Str(source))))
            == Ok(Favorites.Insert(id, title, Favorites.Text(thumb), Favorites.Text(source)))
  {
    var body := Client.PayloadJson(Client.Payload(Str(id), Str(title), Str(thumb), Str(source)));
    assert Prop(body, "id") == Str(id) && Prop(body, "title") == Str(title);
    assert Prop(body, "thumb") == Str(thumb) && Prop(body, "source") == Str(source);
  }

  /** `item.id ?? item.idMeal` keeps an empty-string `id` even when `idMeal` is set, and
      the server then refuses the save with 400. */
  lemma EmptyIdIsKeptAndRefused(item: JsValue)
    requires !Nullish(item) && Prop(item, "id") == Str("")
    ensures Client.SavePayload(item).value.id == Str("")
    ensures Favorites.PostRequest(Client.PayloadJson(Client.SavePayload(item).value))
            == Err(BadRequest(Favorites.IdAndTitleRequired))
  {
  }

  /** The page sends an edit exactly when the server would accept its title: the client's
      empty-answer guard matches the server's 400 for an empty title. */
  lemma EditSentIffAccepted(answer: Option<string>)
    ensures Client.EditTitle(answer).Some?
            <==> answer.Some? && Favorites.PutRequest(Obj(map["title" := Str(answer.value)])).Ok?
    ensures Client.EditTitle(answer).Some? ==>
              Favorites.PutRequest(Obj(map["title" := Str(answer.value)])) == Ok(answer.value)
  {
  }

  /** With the Search button enabled, the server sends the trimmed query upstream; with no
      request in flight and the button disabled, the server would have answered `[]`
      without an upstream call. */
  lemma SearchButtonMatchesServer(loading: bool, q: string, upstream: Result<JsValue, Catalog.FetchFailure>)
    ensures Client.SearchEnabled(loading, q) ==>
              Catalog.Search(Str(q), upstream).upstreamQuery == Some(Trim(q))
    ensures !loading && !Client.SearchEnabled(loading, q) ==>
              Catalog.Search(Str(q), upstream) == Catalog.SearchExchange(None, Json([]))
  {
    var text := Catalog.QueryText(Str(q));
    assert text == Ok(Trim(q));
    if Client.SearchEnabled(loading, q) {
      assert text.value != "";
    } else if !loading {
      assert text == Ok("");
    }
  }

  /** The page keeps the random pick the server sent: a recipe stays (it is an object, so
      truthy) and `null` stays `null`. */
  lemma RandomPickKept(upstream: Result<JsValue, Catalog.FetchFailure>)
    requires Catalog.Random(upstream).Json?
    ensures Client.TruthyOrNull(PickJson(Catalog.Random(upstream).body))
            == PickJson(Catalog.Random(upstream).body)
  {
  }

  /** The reply of `GET /api/search` as the page receives it. */
  function RecipesJson(rs: seq<Catalog.Recipe>): JsValue
  {
    Arr(seq(|rs|, i requires 0 <= i < |rs| => RecipeJson(rs[i])))
  }

  /** The reply of `GET /api/favorites` as the page receives it. */
  function FavoritesJson(fs: seq<Favorites.Favorite>): JsValue
  {
    Arr(seq(|fs|, i requires 0 <= i < |fs| => FavoriteJson(fs[i])))
  }

  /** The page keeps a received list of recipes as it is. */
  lemma RecipesKept(rs: seq<Catalog.Recipe>)
    ensures var shown := Client.ArrayOrEmpty(RecipesJson(rs));
            |shown| == |rs| && forall i :: 0 <= i < |rs| ==> shown[i] == RecipeJson(rs[i])
  {
  }

  /** A non-blank search whose upstream body has no null meal succeeds, and the results the
      page keeps are the upstream meals, normalised, in upstream order, or none when the
      upstream `meals` is not an array. */
  lemma SearchResultsKept(q: string, upstream: Result<JsValue, Catalog.FetchFailure>)
    requires !Blank(q)
    requires upstream.Ok? && !Nullish(upstream.value)
    requires var meals := Prop(upstream.value, "meals");
             meals.Arr? ==> forall i :: 0 <= i < |meals.elems| ==> !Nullish(meals.elems[i])
    ensures Catalog.Search(Str(q), upstream).reply.Json?
    ensures var shown := Client.ArrayOrEmpty(RecipesJson(Catalog.Search(Str(q), upstream).reply.body));
            var meals := Prop(upstream.value, "meals");
            if meals.Arr? then
              |shown| == |meals.elems|
              && forall i :: 0 <= i < |meals.elems| ==> shown[i] == RecipeJson(Catalog.MapMeal(meals.elems[i]).value)
            else shown == []
  {
    var x := Catalog.Search(Str(q), upstream);
    assert Catalog.QueryText(Str(q)) == Ok(Trim(q));
    assert x.upstreamQuery.Some?;
    RecipesKept(x.reply.body);
  }

  /** The favorites the page keeps after a successful listing are every stored row once,
      in the newest-first order the server sent them. */
  lemma ListedFavoritesKept(t: Favorites.Table, rows: seq<Favorites.Favorite>)
    requires Favorites.IsListing(t, rows)
    ensures var shown := Client.ArrayOrEmpty(FavoritesJson(rows));
            |shown| == |t| && forall i :: 0 <= i < |rows| ==> shown[i] == FavoriteJson(rows[i])
  {
    Favorites.ListingLength(t, rows);
  }

  /** A stored favorite is shown with its own title (never "(no title)", titles being
      stored non-NULL), and a NULL thumb or source shows as "" (no image, no link). */
  lemma StoredFavoriteDisplay(f: Favorites.Favorite)
    ensures Client.FavoriteDisplay(FavoriteJson(f))
            == Ok(Client.Display(Str(f.title),
                                 if f.thumb.Text? then Str(f.thumb.s) else Str(""),
                                 if f.source.Text? then Str(f.source.s) else Str("")))
  {
    var v := FavoriteJson(f);
    assert Prop(v, "title") == Str(f.title) && Prop(v, "thumb") == TextJson(f.thumb)
           && Prop(v, "source") == TextJson(f.source);
    assert Prop(v, "name") == Undefined && Prop(v, "strMeal") == Undefined;
    assert Prop(v, "image") == Undefined && Prop(v, "strMealThumb") == Undefined;
    assert Prop(v, "link") == Undefined;
  }
}
