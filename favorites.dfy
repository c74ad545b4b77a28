/** The favorites store of server/index.js: the table
    `favorites(id TEXT PRIMARY KEY, title TEXT NOT NULL, thumb TEXT, source TEXT,
    saved_at TIMESTAMP DEFAULT CURRENT_TIMESTAMP)` and the four handlers that read and
    change it. The table is a map from primary key to row, so there is one row per id by
    construction. Each handler runs one statement; whether the storage engine fails is a
    parameter, and a failed statement changes nothing. */
module Favorites {
  import opened JsValues
  import opened Http

  /** A value of a TEXT column: a string or SQL NULL. */
  datatype SqlText = Text(s: string) | SqlNull

  /** The non-key columns of a row. `savedAt` is a reading of the store's clock. */
  datatype Row = Row(title: string, thumb: SqlText, source: SqlText, savedAt: int)

  type Table = map<string, Row>

  /** A row as `GET /api/favorites` returns it. */
  datatype Favorite = Favorite(id: string, title: string, thumb: SqlText, source: SqlText, savedAt: int)

  function AsFavorite(id: string, row: Row): Favorite
  {
    Favorite(id, row.title, row.thumb, row.source, row.savedAt)
  }

  const IdAndTitleRequired := "id and title required"
  const TitleRequired := "title required"
  const SaveFailed := "save failed"
  const UpdateFailed := "update failed"
  const DeleteFailed := "delete failed"
  const ReadFailed := "read failed"

  /** `req.body || {}` */
  function BodyObject(body: JsValue): JsValue
  {
    Or(body, Obj(map[]))
  }

  /** A destructured property with a default (`{ thumb = "" }`): the default replaces
      `undefined` only; an explicit `null` is kept. */
  function OrDefault(v: JsValue, default: JsValue): JsValue
  {
    if v.Undefined? then default else v
  }

  /** Binding a value to a TEXT statement parameter. Strings and null are modelled; other
      kinds are refused (see README, "Left out"). */
  function BindText(v: JsValue): Option<SqlText>
  {
    match v
    case Str(s) => Some(Text(s))
    case Null => Some(SqlNull)
    case _ => None
  }

  /** The parameters of the upsert statement. */
  datatype Insert = Insert(id: string, title: string, thumb: SqlText, source: SqlText)

  /** The validation and parameter binding of `POST /api/favorites`: a missing or falsy
      `id` or `title` is a 400; `thumb` and `source` default to "" only when absent; a
      value the statement cannot bind is a 500. */
  function PostRequest(body: JsValue): (r: Result<Insert, Reply<Ack>>)
    ensures var b := BodyObject(body);
            r.Err? && r.error.BadRequest? <==> !Truthy(Prop(b, "id")) || !Truthy(Prop(b, "title"))
    ensures r.Err? ==> r.error == BadRequest(IdAndTitleRequired) || r.error == ServerError(SaveFailed)
    ensures var b := BodyObject(body);
            r.Ok? <==> && Truthy(Prop(b, "id")) && Prop(b, "id").Str?
                       && Truthy(Prop(b, "title")) && Prop(b, "title").Str?
                       && BindText(OrDefault(Prop(b, "thumb"), Str(""))).Some?
                       && BindText(OrDefault(Prop(b, "source"), Str(""))).Some?
    ensures r.Ok? ==> r.value.id != "" && r.value.title != ""
    ensures r.Ok? ==> var b := BodyObject(body);
                      && Prop(b, "id") == Str(r.value.id)
                      && Prop(b, "title") == Str(r.value.title)
                      && Some(r.value.thumb) == BindText(OrDefault(Prop(b, "thumb"), Str("")))
                      && Some(r.value.source) == BindText(OrDefault(Prop(b, "source"), Str("")))
    ensures r.Ok? ==> (Prop(BodyObject(body), "thumb").Undefined? ==> r.value.thumb == Text(""))
                      && (Prop(BodyObject(body), "source").Undefined? ==> r.value.source == Text(""))
  {
    var b := BodyObject(body);
    var id := Prop(b, "id");
    var title := Prop(b, "title");
    var thumb := OrDefault(Prop(b, "thumb"), Str(""));
    var source := OrDefault(Prop(b, "source"), Str(""));
    if !Truthy(id) || !Truthy(title) then Err(BadRequest(IdAndTitleRequired))
    else if id.Str? && title.Str? && BindText(thumb).Some? && BindText(source).Some? then
      Ok(Insert(id.s, title.s, BindText(thumb).value, BindText(source).value))
    else Err(ServerError(SaveFailed))
  }

  /** The validation and parameter binding of `PUT /api/favorites/:id`: a missing or falsy
      `title` is a 400; a title the statement cannot bind is a 500. */
  function PutRequest(body: JsValue): (r: Result<string, Reply<Ack>>)
    ensures r.Err? && r.error.BadRequest? <==> !Truthy(Prop(BodyObject(body), "title"))
    ensures r.Err? ==> r.error == BadRequest(TitleRequired) || r.error == ServerError(UpdateFailed)
    ensures r.Ok? <==> Prop(BodyObject(body), "title").Str? && Prop(BodyObject(body), "title").s != ""
    ensures r.Ok? ==> Prop(BodyObject(body), "title") == Str(r.value)
  {
    var title := Prop(BodyObject(body), "title");
    if !Truthy(title) then Err(BadRequest(TitleRequired))
    else if title.Str? then Ok(title.s)
    else Err(ServerError(UpdateFailed))
  }

  /** `INSERT ... ON CONFLICT (id) DO UPDATE SET title, thumb, source`: afterwards exactly
      the row `ins.id` holds the new title, thumb and source; its `saved_at` is kept when
      the id existed and is `now` otherwise; every other row is unchanged. */
  function Upserted(t: Table, ins: Insert, now: int): (r: Table)
    ensures r.Keys == t.Keys + {ins.id}
    ensures r[ins.id].title == ins.title && r[ins.id].thumb == ins.thumb
            && r[ins.id].source == ins.source
    ensures r[ins.id].savedAt == if ins.id in t then t[ins.id].savedAt else now
    ensures forall k :: k in t && k != ins.id ==> r[k] == t[k]
  {
    var savedAt := if ins.id in t then t[ins.id].savedAt else now;
    t[ins.id := Row(ins.title, ins.thumb, ins.source, savedAt)]
  }

  /** `UPDATE favorites SET title = ? WHERE id = ?`: only the title of row `id` changes;
      when there is no such row nothing changes. */
  function Renamed(t: Table, id: string, title: string): (r: Table)
    ensures r.Keys == t.Keys
    ensures id in t ==> r[id] == t[id].(title := title)
    ensures forall k :: k in t && k != id ==> r[k] == t[k]
    ensures id !in t ==> r == t
  {
    if id in t then t[id := t[id].(title := title)] else t
  }

  /** `DELETE FROM favorites WHERE id = ?`: exactly row `id` is gone, if it was there. */
  function Deleted(t: Table, id: string): (r: Table)
    ensures r.Keys == t.Keys - {id}
    ensures forall k :: k in r ==> r[k] == t[k]
    ensures id !in t ==> r == t
  {
    t - {id}
  }

  /** `rows` is newest first: `saved_at` never increases along it. */
  ghost predicate NewestFirst(rows: seq<Favorite>)
  {
    forall i, j :: 0 <= i < j < |rows| ==> rows[i].savedAt >= rows[j].savedAt
  }

  /** `rows` is an answer to `SELECT ... FROM favorites ORDER BY saved_at DESC` on `t`:
      every row of `t` exactly once, as stored, newest first. Rows with equal `saved_at`
      may come in any order. */
  ghost predicate IsListing(t: Table, rows: seq<Favorite>)
  {
    StoredIn(t, rows) && DistinctIds(rows) && Covers(t, rows) && NewestFirst(rows)
  }

  /** Every entry of `rows` is a row of `t`, as stored. */
  ghost predicate StoredIn(t: Table, rows: seq<Favorite>)
  {
    forall i :: 0 <= i < |rows| ==> rows[i].id in t && rows[i] == AsFavorite(rows[i].id, t[rows[i].id])
  }

  /** No id appears twice in `rows`. */
  ghost predicate DistinctIds(rows: seq<Favorite>)
  {
    forall i, j :: 0 <= i < j < |rows| ==> rows[i].id != rows[j].id
  }

  /** Every row of `t` appears in `rows`. */
  ghost predicate Covers(t: Table, rows: seq<Favorite>)
  {
    forall k :: k in t ==> exists i :: 0 <= i < |rows| && rows[i].id == k
  }

  /** What `List` has done so far: `rows` lists, each once and as stored, exactly the rows
      of `t` whose ids are not in `left`... */
  ghost predicate ListedExcept(t: Table, rows: seq<Favorite>, left: set<string>)
  {
    && left <= t.Keys
    && (forall i :: 0 <= i < |rows| ==>
          rows[i].id in t && rows[i].id !in left && rows[i] == AsFavorite(rows[i].id, t[rows[i].id]))
    && DistinctIds(rows)
    && (forall k :: k in t && k !in left ==> exists i :: 0 <= i < |rows| && rows[i].id == k)
  }

  /** ... newest first, and none of them older than a row whose id is still in `left`. */
  ghost predicate NewestBefore(t: Table, rows: seq<Favorite>, left: set<string>)
    requires left <= t.Keys
  {
    && NewestFirst(rows)
    && (forall i, k :: 0 <= i < |rows| && k in left ==> rows[i].savedAt >= t[k].savedAt)
  }

  /** Appending the row of an id still in `left` keeps `ListedExcept`. */
  lemma ListStep(t: Table, rows: seq<Favorite>, left: set<string>, id: string)
    requires ListedExcept(t, rows, left) && id in left
    ensures ListedExcept(t, rows + [AsFavorite(id, t[id])], left - {id})
  {
    var rows' := rows + [AsFavorite(id, t[id])];
    var left' := left - {id};
    forall k | k in t && k !in left' ensures exists i :: 0 <= i < |rows'| && rows'[i].id == k {
      if k == id {
        assert rows'[|rows|].id == k;
      } else {
        var i :| 0 <= i < |rows| && rows[i].id == k;
        assert rows'[i].id == k;
      }
    }
  }

  /** Appending the row of the newest id still in `left` keeps `NewestBefore`. */
  lemma OrderStep(t: Table, rows: seq<Favorite>, left: set<string>, id: string)
    requires left <= t.Keys && NewestBefore(t, rows, left)
    requires id in left && forall k :: k in left ==> t[id].savedAt >= t[k].savedAt
    ensures NewestBefore(t, rows + [AsFavorite(id, t[id])], left - {id})
  {
    var rows' := rows + [AsFavorite(id, t[id])];
    forall i, j | 0 <= i < j < |rows'| ensures rows'[i].savedAt >= rows'[j].savedAt {
      if j == |rows| {
        assert rows'[i] == rows[i];
      }
    }
  }

  /** The persistent table and the clock that `CURRENT_TIMESTAMP` reads. */
  class Store {
    var table: Table
    var clock: int

    /** Ids and titles are non-empty (the handlers reject falsy ones) and no row was
        saved in the future. */
    ghost predicate Valid()
      reads this
    {
      && "" !in table
      && forall id :: id in table ==> table[id].title != "" && table[id].savedAt <= clock
    }

    /** Opening the database file: `CREATE TABLE IF NOT EXISTS` keeps the rows a previous
        run left, which were written under the same rules. */
    constructor Open(rows: Table, now: int)
      requires "" !in rows
      requires forall id :: id in rows ==> rows[id].title != "" && rows[id].savedAt <= now
      ensures Valid() && table == rows && clock == now
    {
      table := rows;
      clock := now;
    }

    /** Time passes. */
    method Tick(elapsed: nat)
      requires Valid()
      modifies this
      ensures Valid() && table == old(table) && clock == old(clock) + elapsed
    {
      clock := clock + elapsed;
    }

    /** `POST /api/favorites` */
    method Upsert(body: JsValue, storageFails: bool) returns (reply: Reply<Ack>)
      requires Valid()
      modifies this
      ensures Valid() && clock == old(clock)
      ensures PostRequest(body).Err? ==> reply == PostRequest(body).error && table == old(table)
      ensures PostRequest(body).Ok? && storageFails ==>
                reply == ServerError(SaveFailed) && table == old(table)
      ensures PostRequest(body).Ok? && !storageFails ==>
                reply == Json(OkTrue) && table == Upserted(old(table), PostRequest(body).value, clock)
    {
      match PostRequest(body)
      case Err(rejection) =>
        reply := rejection;
      case Ok(ins) =>
        if storageFails {
          reply := ServerError(SaveFailed);
        } else {
          table := Upserted(table, ins, clock);
          reply := Json(OkTrue);
        }
    }

    /** `PUT /api/favorites/:id`; a missing id is not an error. */
    method UpdateTitle(id: string, body: JsValue, storageFails: bool) returns (reply: Reply<Ack>)
      requires Valid()
      modifies this
      ensures Valid() && clock == old(clock)
      ensures PutRequest(body).Err? ==> reply == PutRequest(body).error && table == old(table)
      ensures PutRequest(body).Ok? && storageFails ==>
                reply == ServerError(UpdateFailed) && table == old(table)
      ensures PutRequest(body).Ok? && !storageFails ==>
                reply == Json(OkTrue) && table == Renamed(old(table), id, PutRequest(body).value)
    {
      match PutRequest(body)
      case Err(rejection) =>
        reply := rejection;
      case Ok(title) =>
        if storageFails {
          reply := ServerError(UpdateFailed);
        } else {
          table := Renamed(table, id, title);
          reply := Json(OkTrue);
        }
    }

    /** `DELETE /api/favorites/:id`; deleting an absent id is not an error. */
    method Delete(id: string, storageFails: bool) returns (reply: Reply<Ack>)
      requires Valid()
      modifies this
      ensures Valid() && clock == old(clock)
      ensures storageFails ==> reply == ServerError(DeleteFailed) && table == old(table)
      ensures !storageFails ==> reply == Json(OkTrue) && table == Deleted(old(table), id)
    {
      if storageFails {
        reply := ServerError(DeleteFailed);
      } else {
        table := Deleted(table, id);
        reply := Json(OkTrue);
      }
    }

    /** An id among `keys` whose row has the latest `saved_at`. */
    method Newest(keys: set<string>) returns (newest: string)
      requires keys != {} && keys <= table.Keys
      ensures newest in keys
      ensures forall k :: k in keys ==> table[newest].savedAt >= table[k].savedAt
    {
      newest :| newest in keys;
      var rest := keys - {newest};
      while rest != {}
        invariant rest <= keys && newest in keys
        invariant forall k :: k in keys && k !in rest ==> table[newest].savedAt >= table[k].savedAt
        decreases rest
      {
        var k :| k in rest;
        if table[k].savedAt > table[newest].savedAt {
          newest := k;
        }
        rest := rest - {k};
      }
    }

    /** `GET /api/favorites`: `SELECT ... ORDER BY saved_at DESC`, by repeatedly taking
        the newest row not yet listed. */
    method List(storageFails: bool) returns (reply: Reply<seq<Favorite>>)
      ensures reply.Json? <==> !storageFails
      ensures storageFails ==> reply == ServerError(ReadFailed)
      ensures reply.Json? ==> IsListing(table, reply.body)
    {
      if storageFails {
        return ServerError(ReadFailed);
      }
      var rows: seq<Favorite> := [];
      var left := table.Keys;
      while left != {}
        invariant ListedExcept(table, rows, left)
        invariant NewestBefore(table, rows, left)
        decreases left
      {
        var id := Newest(left);
        ListStep(table, rows, left, id);
        OrderStep(table, rows, left, id);
        rows := rows + [AsFavorite(id, table[id])];
        left := left - {id};
      }
      return Json(rows);
    }
  }

  /** Saving the same id twice leaves one row with the second save's title, thumb and
      source and the first save's `saved_at`. */
  lemma SaveTwiceLatestWins(t: Table, first: Insert, second: Insert, now1: int, now2: int)
    requires first.id == second.id
    ensures Upserted(Upserted(t, first, now1), second, now2) == Upserted(t, second, now1)
  {
  }

  /** Distinct ids: the set of ids has as many elements as the sequence. */
  lemma {:induction false} DistinctIdsCount(rows: seq<Favorite>)
    requires DistinctIds(rows)
    ensures |(set i | 0 <= i < |rows| :: rows[i].id)| == |rows|
  {
    if rows != [] {
      var tail := rows[1..];
      DistinctIdsCount(tail);
      var ids := set i | 0 <= i < |rows| :: rows[i].id;
      var tailIds := set i | 0 <= i < |tail| :: tail[i].id;
      assert ids == tailIds + {rows[0].id} by {
        forall k | k in ids ensures k in tailIds + {rows[0].id} {
          var i :| 0 <= i < |rows| && rows[i].id == k;
          if i > 0 { assert tail[i - 1].id == k; }
        }
      }
      assert rows[0].id !in tailIds;
    }
  }

  /** A listing has one entry per row of the table. */
  lemma ListingLength(t: Table, rows: seq<Favorite>)
    requires IsListing(t, rows)
    ensures |rows| == |t|
  {
    DistinctIdsCount(rows);
    var ids := set i | 0 <= i < |rows| :: rows[i].id;
    assert ids == t.Keys;
  }

  /** The first entry of a listing is a newest row of the table. */
  lemma ListingHeadIsNewest(t: Table, rows: seq<Favorite>)
    requires IsListing(t, rows) && rows != []
    ensures forall k :: k in t ==> rows[0].savedAt >= t[k].savedAt
  {
    forall k | k in t ensures rows[0].savedAt >= t[k].savedAt {
      var i :| 0 <= i < |rows| && rows[i].id == k;
    }
  }

  /** Without its first entry, a listing lists the rest of the table. */
  lemma ListingTail(t: Table, rows: seq<Favorite>)
    requires IsListing(t, rows) && rows != []
    ensures IsListing(t - {rows[0].id}, rows[1..])
  {
    var rest := t - {rows[0].id};
    var tail := rows[1..];
    forall k | k in rest ensures exists i :: 0 <= i < |tail| && tail[i].id == k {
      var i :| 0 <= i < |rows| && rows[i].id == k;
      assert tail[i - 1].id == k;
    }
  }

  /** No two rows saved at the same instant. */
  ghost predicate DistinctTimes(t: Table)
  {
    forall a, b :: a in t && b in t && a != b ==> t[a].savedAt != t[b].savedAt
  }

  /** With distinct times, two listings of a table start with the same entry. */
  lemma ListingHeadsAgree(t: Table, xs: seq<Favorite>, ys: seq<Favorite>)
    requires IsListing(t, xs) && IsListing(t, ys) && DistinctTimes(t)
    requires xs != [] && ys != []
    ensures xs[0] == ys[0]
  {
    var x, y := xs[0], ys[0];
    ListingHeadIsNewest(t, xs);
    ListingHeadIsNewest(t, ys);
    assert x == AsFavorite(x.id, t[x.id]) && y == AsFavorite(y.id, t[y.id]);
    assert x.savedAt >= t[y.id].savedAt && y.savedAt >= t[x.id].savedAt;
    assert x.id == y.id;
  }

  /** When no two rows share a `saved_at`, the listing is determined: favorites saved at
      t1 < t2 < t3 are listed t3, t2, t1. */
  lemma {:induction false} ListingUnique(t: Table, xs: seq<Favorite>, ys: seq<Favorite>)
    requires IsListing(t, xs) && IsListing(t, ys) && DistinctTimes(t)
    ensures xs == ys
    decreases |t|, 1
  {
    ListingLength(t, xs);
    ListingLength(t, ys);
    if xs != [] {
      ListingHeadsAgree(t, xs, ys);
      ListingTailsAgree(t, xs, ys);
      SameHeadSameTail(xs, ys);
    }
  }

  /** The step of `ListingUnique`: the tails list the same smaller table. */
  lemma {:induction false} ListingTailsAgree(t: Table, xs: seq<Favorite>, ys: seq<Favorite>)
    requires IsListing(t, xs) && IsListing(t, ys) && DistinctTimes(t)
    requires xs != [] && ys != [] && xs[0] == ys[0]
    ensures xs[1..] == ys[1..]
    decreases |t|, 0
  {
    var rest := t - {xs[0].id};
    ListingTail(t, xs);
    ListingTail(t, ys);
    RemoveShrinks(t, xs[0].id);
    ListingUnique(rest, xs[1..], ys[1..]);
  }

  lemma RemoveShrinks(t: Table, id: string)
    requires id in t && DistinctTimes(t)
    ensures |t - {id}| < |t| && DistinctTimes(t - {id})
  {
    assert (t - {id}).Keys < t.Keys;
  }

  lemma SameHeadSameTail(xs: seq<Favorite>, ys: seq<Favorite>)
    requires xs != [] && ys != [] && xs[0] == ys[0] && xs[1..] == ys[1..]
    ensures xs == ys
  {
    assert xs == [xs[0]] + xs[1..];
    assert ys == [ys[0]] + ys[1..];
  }

  /** A favorite saved for the first time, after every existing row, is listed first. */
  lemma NewSaveListedFirst(t: Table, ins: Insert, now: int, rows: seq<Favorite>)
    requires ins.id !in t
    requires forall k :: k in t ==> t[k].savedAt < now
    requires IsListing(Upserted(t, ins, now), rows)
    ensures rows != [] && rows[0] == Favorite(ins.id, ins.title, ins.thumb, ins.source, now)
  {
    var u := Upserted(t, ins, now);
    assert ins.id in u;
    var i :| 0 <= i < |rows| && rows[i].id == ins.id;
    assert rows[0].savedAt >= rows[i].savedAt;
  }

  /** On a store, a favorite saved for the first time once time has passed is listed
      first: the store invariant guarantees that every existing row is older. */
  method SaveAfterTickListedFirst(store: Store, body: JsValue, elapsed: nat)
    returns (listed: Reply<seq<Favorite>>)
    requires store.Valid() && elapsed > 0
    requires PostRequest(body).Ok? && PostRequest(body).value.id !in store.table
    modifies store
    ensures store.Valid()
    ensures listed.Json? && listed.body != []
    ensures var ins := PostRequest(body).value;
            listed.body[0] == Favorite(ins.id, ins.title, ins.thumb, ins.source, old(store.clock) + elapsed)
  {
    var before := store.table;
    store.Tick(elapsed);
    var saved := store.Upsert(body, false);
    listed := store.List(false);
    NewSaveListedFirst(before, PostRequest(body).value, store.clock, listed.body);
  }

  /** `rows`, whose ids are all keys of `t`, with every entry re-read from `t`. */
  function Refreshed(rows: seq<Favorite>, t: Table): (r: seq<Favorite>)
    requires forall i :: 0 <= i < |rows| ==> rows[i].id in t
    ensures |r| == |rows|
  {
    seq(|rows|, i requires 0 <= i < |rows| => AsFavorite(rows[i].id, t[rows[i].id]))
  }

  /** A change that keeps every id and every `saved_at` keeps the order of the listing:
      each entry stays where it was and shows the new row. */
  lemma EditKeepsOrder(t: Table, u: Table, rows: seq<Favorite>)
    requires IsListing(t, rows)
    requires u.Keys == t.Keys && forall k :: k in t ==> u[k].savedAt == t[k].savedAt
    ensures IsListing(u, Refreshed(rows, u))
    ensures forall i :: 0 <= i < |rows| ==> Refreshed(rows, u)[i].id == rows[i].id
  {
    var r := Refreshed(rows, u);
    assert forall i :: 0 <= i < |r| ==> r[i] == AsFavorite(rows[i].id, u[rows[i].id]);
    Relisted(t, u, rows, r);
  }

  /** The step of `EditKeepsOrder`, for any `r` that re-reads each entry of `rows` from `u`. */
  lemma Relisted(t: Table, u: Table, rows: seq<Favorite>, r: seq<Favorite>)
    requires IsListing(t, rows)
    requires u.Keys == t.Keys && forall k :: k in t ==> u[k].savedAt == t[k].savedAt
    requires |r| == |rows| && forall i :: 0 <= i < |r| ==> r[i] == AsFavorite(rows[i].id, u[rows[i].id])
    ensures IsListing(u, r)
  {
    assert forall i :: 0 <= i < |r| ==> r[i].id == rows[i].id && r[i].savedAt == rows[i].savedAt;
    forall k | k in u ensures exists i :: 0 <= i < |r| && r[i].id == k {
      var i :| 0 <= i < |rows| && rows[i].id == k;
      assert r[i].id == k;
    }
  }

  /** Saving an id that is already a favorite does not move it in the listing: its
      `saved_at` is not refreshed. */
  lemma ResaveKeepsPosition(t: Table, ins: Insert, now: int, rows: seq<Favorite>)
    requires IsListing(t, rows) && ins.id in t
    ensures IsListing(Upserted(t, ins, now), Refreshed(rows, Upserted(t, ins, now)))
    ensures forall i :: 0 <= i < |rows| ==> Refreshed(rows, Upserted(t, ins, now))[i].id == rows[i].id
  {
    EditKeepsOrder(t, Upserted(t, ins, now), rows);
  }

  /** Renaming a favorite does not move it in the listing. */
  lemma RenameKeepsPosition(t: Table, id: string, title: string, rows: seq<Favorite>)
    requires IsListing(t, rows)
    ensures IsListing(Renamed(t, id, title), Refreshed(rows, Renamed(t, id, title)))
    ensures forall i :: 0 <= i < |rows| ==> Refreshed(rows, Renamed(t, id, title))[i].id == rows[i].id
  {
    EditKeepsOrder(t, Renamed(t, id, title), rows);
  }

  /** The only listing of a one-row table is that row. */
  lemma SingleRowListing(id: string, row: Row, rows: seq<Favorite>)
    requires IsListing(map[id := row], rows)
    ensures rows == [AsFavorite(id, row)]
  {
    ListingLength(map[id := row], rows);
  }

  /** Saving `{id: "52772", title: "Teriyaki Chicken"}` into an empty table: the listing
      then holds that one favorite with empty thumb and source. */
  method SaveScenario()
  {
    var store := new Store.Open(map[], 0);
    var body := Obj(map["id" := Str("52772"), "title" := Str("Teriyaki Chicken")]);
    assert PostRequest(body) == Ok(Insert("52772", "Teriyaki Chicken", Text(""), Text("")));
    var saved := store.Upsert(body, false);
    assert saved == Json(OkTrue);
    var listed := store.List(false);
    SingleRowListing("52772", Row("Teriyaki Chicken", Text(""), Text(""), 0), listed.body);
    assert listed.body == [Favorite("52772", "Teriyaki Chicken", Text(""), Text(""), 0)];
  }

  /** Renaming that favorite to "New Name": same id, new title. */
  method RenameScenario()
  {
    var store := new Store.Open(map["52772" := Row("Teriyaki Chicken", Text(""), Text(""), 0)], 0);
    var body := Obj(map["title" := Str("New Name")]);
    assert PutRequest(body) == Ok("New Name");
    var renamed := store.UpdateTitle("52772", body, false);
    assert renamed == Json(OkTrue);
    var listed := store.List(false);
    SingleRowListing("52772", Row("New Name", Text(""), Text(""), 0), listed.body);
    assert listed.body == [Favorite("52772", "New Name", Text(""), Text(""), 0)];
  }

  /** Deleting it: the listing is empty, and deleting again still succeeds. */
  method DeleteScenario()
  {
    var store := new Store.Open(map["52772" := Row("New Name", Text(""), Text(""), 0)], 0);
    var deleted := store.Delete("52772", false);
    assert deleted == Json(OkTrue);
    var listed := store.List(false);
    ListingLength(store.table, listed.body);
    assert listed.body == [];
    var again := store.Delete("52772", false);
    assert again == Json(OkTrue) && store.table == map[];
  }
}
