/** The four route handlers of the to-do app as functions from the store's state, the
    request fields and a possible store fault to a new state and an HTTP outcome.

    The default list "Today" is the top-level Item collection (`items`); every custom list is
    a List document, here an entry of `lists` from its name to its embedded items. `nextId`
    stands for the generation of fresh ObjectIds. */
module Routes {
  import opened Names
  import opened Items

  const TODAY: string := "Today"

  /** The three starter items, created once with fixed ids (they are reused every time the
      Item collection is seeded and every time a custom list is created). */
  const DEFAULT_ITEMS: seq<Item> := [
    Item(0, "Welcome to your to-do list!"),
    Item(1, "Hit the + button to add a new item."),
    Item(2, "<-- Hit this to delete an item.")
  ]

  /** The first id not taken by a default item. */
  const FIRST_FRESH_ID: Id := 3

  datatype Db = Db(items: seq<Item>, lists: map<string, seq<Item>>, nextId: Id)

  /** What the handler sends back. `Fail` is the uncaught null dereference of the add path;
      `NoResponse` is a store error that is only logged, leaving the request unanswered. */
  datatype Outcome =
    | Render(title: string, entries: seq<Item>)
    | Redirect(path: string)
    | Fail
    | NoResponse

  /** Which store call of a handler reports an error: the lookup (`find`, `findOne`) or the
      update (`insertMany`, `save`, `findByIdAndDelete`, `findOneAndUpdate`). A failed update
      changes nothing. */
  datatype Fault = NoFault | ReadFault | WriteFault

  datatype Response = Response(db: Db, out: Outcome)

  /** A collection whose ids are unique and all drawn before `bound`. */
  predicate WellFormed(s: seq<Item>, bound: Id) {
    UniqueIds(s) && forall x :: x in s ==> x.id < bound
  }

  /** The invariant every reachable state keeps: ids are unique in each collection and all
      below the fresh-id counter, and every list is stored under its normalised name. */
  predicate Valid(db: Db) {
    && FIRST_FRESH_ID <= db.nextId
    && WellFormed(db.items, db.nextId)
    && forall name :: name in db.lists ==> Capitalize(name) == name && WellFormed(db.lists[name], db.nextId)
  }

  /** The empty store of a first start on an empty database. */
  function Init(): (db: Db)
    ensures Valid(db)
  {
    Db([], map[], FIRST_FRESH_ID)
  }

  /** `GET /`: bootstrap the Item collection on first visit, otherwise render it. */
  function GetRoot(db: Db, fault: Fault): (r: Response)
    ensures fault == ReadFault ==> r == Response(db, NoResponse)
    ensures fault != ReadFault && db.items != [] ==> r == Response(db, Render(TODAY, db.items))
    ensures fault != ReadFault && db.items == [] ==>
      && r.out == Redirect("/")
      && r.db.lists == db.lists && r.db.nextId == db.nextId
      && (fault == NoFault ==> r.db.items == DEFAULT_ITEMS)
      && (fault == WriteFault ==> r.db.items == [])
  {
    if fault == ReadFault then Response(db, NoResponse)
    else if |db.items| == 0 then
      // the redirect is sent whether or not insertMany succeeded
      var seeded := if fault == WriteFault then db.items else DEFAULT_ITEMS;
      Response(db.(items := seeded), Redirect("/"))
    else Response(db, Render(TODAY, db.items))
  }

  /** `GET /:customListName`: normalise the name, then render the list or create it. */
  function GetCustom(db: Db, requested: string, fault: Fault): (r: Response)
    // Today and the id counter are never touched
    ensures r.db.items == db.items && r.db.nextId == db.nextId
    // an existing list is never changed, so never reseeded
    ensures forall k :: k in db.lists ==> k in r.db.lists && r.db.lists[k] == db.lists[k]
    // at most one list appears, under the normalised name
    ensures r.db.lists.Keys <= db.lists.Keys + {Capitalize(requested)}
    ensures fault != ReadFault && Capitalize(requested) in db.lists ==>
      r == Response(db, Render(Capitalize(requested), db.lists[Capitalize(requested)]))
    ensures fault == NoFault && Capitalize(requested) !in db.lists ==>
      && r.out == Redirect("/" + Capitalize(requested))
      && Capitalize(requested) in r.db.lists
      && r.db.lists[Capitalize(requested)] == DEFAULT_ITEMS
    ensures fault == ReadFault || (fault == WriteFault && Capitalize(requested) !in db.lists) ==>
      r == Response(db, NoResponse)
  {
    var name := Capitalize(requested);
    if fault == ReadFault then Response(db, NoResponse)
    else if name in db.lists then Response(db, Render(name, db.lists[name]))
    else if fault == WriteFault then Response(db, NoResponse)
    else Response(db.(lists := db.lists[name := DEFAULT_ITEMS]), Redirect("/" + name))
  }

  /** `POST /`: append a new item to Today or to the custom list named exactly `listName`.
      The item, and so its id, is made before the target is known. */
  function PostAdd(db: Db, newItem: string, listName: string, fault: Fault): (r: Response)
    ensures r.db.nextId == db.nextId + 1
    ensures listName == TODAY ==> r.db.lists == db.lists
    ensures listName == TODAY && fault != WriteFault ==>
      && r.out == Redirect("/")
      && |r.db.items| == |db.items| + 1
      && r.db.items[..|db.items|] == db.items
      && r.db.items[|db.items|] == Item(db.nextId, newItem)
    ensures listName != TODAY ==> r.db.items == db.items
    ensures listName != TODAY && (fault == ReadFault || listName !in db.lists) ==>
      r.out == Fail && r.db.lists == db.lists
    ensures listName != TODAY && fault == NoFault && listName in db.lists ==>
      && r.out == Redirect("/" + listName)
      && r.db.lists.Keys == db.lists.Keys
      && (forall k :: k in db.lists && k != listName ==> r.db.lists[k] == db.lists[k])
      && |r.db.lists[listName]| == |db.lists[listName]| + 1
      && r.db.lists[listName][..|db.lists[listName]|] == db.lists[listName]
      && r.db.lists[listName][|db.lists[listName]|] == Item(db.nextId, newItem)
    ensures fault == WriteFault && (listName == TODAY || listName in db.lists) ==>
      r.out == NoResponse && r.db.items == db.items && r.db.lists == db.lists
  {
    var item := Item(db.nextId, newItem);
    var drawn := db.(nextId := db.nextId + 1);
    if listName == TODAY then
      if fault == WriteFault then Response(drawn, NoResponse)
      else Response(drawn.(items := db.items + [item]), Redirect("/"))
    else if fault == ReadFault || listName !in db.lists then
      // `foundList` is null or undefined, and `foundList.items` throws
      Response(drawn, Fail)
    else if fault == WriteFault then Response(drawn, NoResponse)
    else Response(drawn.(lists := db.lists[listName := db.lists[listName] + [item]]), Redirect("/" + listName))
  }

  /** `POST /delete`: remove the item with id `checkbox` from Today or, with `$pull`, from the
      custom list named exactly `listName`. */
  function PostDelete(db: Db, checkbox: Id, listName: string, fault: Fault): (r: Response)
    ensures r.db.nextId == db.nextId
    ensures listName == TODAY ==> r.out == Redirect("/") && r.db.lists == db.lists
    ensures listName == TODAY && fault != WriteFault ==> r.db.items == RemoveId(db.items, checkbox)
    ensures listName != TODAY ==> r.db.items == db.items && r.db.lists.Keys == db.lists.Keys
    ensures listName != TODAY && fault != WriteFault ==>
      && r.out == Redirect("/" + listName)
      && (forall k :: k in db.lists && k != listName ==> r.db.lists[k] == db.lists[k])
      && (listName in db.lists ==> r.db.lists[listName] == RemoveId(db.lists[listName], checkbox))
    ensures fault == WriteFault ==> r.db == db
    ensures fault == WriteFault && listName != TODAY ==> r.out == NoResponse
  {
    if listName == TODAY then
      // the redirect is sent whether or not the deletion succeeded
      if fault == WriteFault then Response(db, Redirect("/"))
      else Response(db.(items := RemoveId(db.items, checkbox)), Redirect("/"))
    else if fault == WriteFault then Response(db, NoResponse)
    else if listName in db.lists then
      Response(db.(lists := db.lists[listName := RemoveId(db.lists[listName], checkbox)]), Redirect("/" + listName))
    else Response(db, Redirect("/" + listName))
  }

  /** One request of each route the application registers. */
  datatype Request =
    | GetRootRequest
    | GetCustomRequest(customListName: string)
    | PostAddRequest(newItem: string, list: string)
    | PostDeleteRequest(checkbox: Id, listName: string)

  /** Express's dispatch of a request to its handler. */
  function Handle(db: Db, req: Request, fault: Fault): (r: Response) {
    match req
    case GetRootRequest => GetRoot(db, fault)
    case GetCustomRequest(name) => GetCustom(db, name, fault)
    case PostAddRequest(newItem, list) => PostAdd(db, newItem, list, fault)
    case PostDeleteRequest(checkbox, listName) => PostDelete(db, checkbox, listName, fault)
  }

  /** The state after a sequence of requests, each handled to completion before the next. */
  function Replay(db: Db, trace: seq<(Request, Fault)>): (r: Db)
    decreases |trace|
  {
    if trace == [] then db else Replay(Handle(db, trace[0].0, trace[0].1).db, trace[1..])
  }

  // ---------------------------------------------------------------------------------------
  // The invariant

  /** A fresh id is not in use in any collection. */
  lemma FreshIdUnused(db: Db)
    requires Valid(db)
    ensures db.nextId !in Ids(db.items)
    ensures forall k :: k in db.lists ==> db.nextId !in Ids(db.lists[k])
  {
  }

  lemma WellFormedRaise(s: seq<Item>, bound: Id, bound': Id)
    requires WellFormed(s, bound) && bound <= bound'
    ensures WellFormed(s, bound')
  {
  }

  lemma WellFormedAppendFresh(s: seq<Item>, bound: Id, name: string)
    requires WellFormed(s, bound)
    ensures WellFormed(s + [Item(bound, name)], bound + 1)
  {
    AppendFreshKeepsUnique(s, Item(bound, name));
  }

  lemma WellFormedRemove(s: seq<Item>, bound: Id, id: Id)
    requires WellFormed(s, bound)
    ensures WellFormed(RemoveId(s, id), bound)
  {
    RemoveIdKeepsUnique(s, id);
    RemoveIdMembers(s, id);
  }

  lemma DefaultItemsWellFormed(bound: Id)
    requires FIRST_FRESH_ID <= bound
    ensures WellFormed(DEFAULT_ITEMS, bound)
  {
  }

  lemma GetRootPreservesValid(db: Db, fault: Fault)
    requires Valid(db)
    ensures Valid(GetRoot(db, fault).db)
  {
    DefaultItemsWellFormed(db.nextId);
  }

  lemma GetCustomPreservesValid(db: Db, requested: string, fault: Fault)
    requires Valid(db)
    ensures Valid(GetCustom(db, requested, fault).db)
  {
    CapitalizeIdempotent(requested);
    DefaultItemsWellFormed(db.nextId);
  }

  lemma PostAddPreservesValid(db: Db, newItem: string, listName: string, fault: Fault)
    requires Valid(db)
    ensures Valid(PostAdd(db, newItem, listName, fault).db)
  {
    var r := PostAdd(db, newItem, listName, fault).db;
    WellFormedAppendFresh(db.items, db.nextId, newItem);
    WellFormedRaise(db.items, db.nextId, r.nextId);
    forall k | k in r.lists ensures Capitalize(k) == k && WellFormed(r.lists[k], r.nextId) {
      WellFormedAppendFresh(db.lists[k], db.nextId, newItem);
      WellFormedRaise(db.lists[k], db.nextId, r.nextId);
    }
  }

  lemma PostDeletePreservesValid(db: Db, checkbox: Id, listName: string, fault: Fault)
    requires Valid(db)
    ensures Valid(PostDelete(db, checkbox, listName, fault).db)
  {
    var r := PostDelete(db, checkbox, listName, fault).db;
    WellFormedRemove(db.items, db.nextId, checkbox);
    forall k | k in r.lists ensures Capitalize(k) == k && WellFormed(r.lists[k], r.nextId) {
      WellFormedRemove(db.lists[k], db.nextId, checkbox);
    }
  }

  lemma HandlePreservesValid(db: Db, req: Request, fault: Fault)
    requires Valid(db)
    ensures Valid(Handle(db, req, fault).db)
  {
    match req
    case GetRootRequest => GetRootPreservesValid(db, fault);
    case GetCustomRequest(name) => GetCustomPreservesValid(db, name, fault);
    case PostAddRequest(newItem, list) => PostAddPreservesValid(db, newItem, list, fault);
    case PostDeleteRequest(checkbox, listName) => PostDeletePreservesValid(db, checkbox, listName, fault);
  }

  lemma {:induction false} ReplayPreservesValid(db: Db, trace: seq<(Request, Fault)>)
    requires Valid(db)
    ensures Valid(Replay(db, trace))
    decreases |trace|
  {
    if trace != [] {
      HandlePreservesValid(db, trace[0].0, trace[0].1);
      ReplayPreservesValid(Handle(db, trace[0].0, trace[0].1).db, trace[1..]);
    }
  }

  /** Every state the application can reach from the empty store keeps the invariant. */
  lemma ReachableIsValid(trace: seq<(Request, Fault)>)
    ensures Valid(Replay(Init(), trace))
  {
    ReplayPreservesValid(Init(), trace);
  }

  /** At most one list exists per normalised name: two stored names that differ only in
      letter case are the same name. */
  lemma AtMostOneListPerName(db: Db, a: string, b: string)
    requires Valid(db)
    requires a in db.lists && b in db.lists
    ensures EqualIgnoringCase(a, b) <==> a == b
  {
    CapitalizeCaseInsensitive(a, b);
    if a == b {
      forall i | 0 <= i < |a| ensures SameLetter(a[i], b[i]) {}
    }
  }

  // ---------------------------------------------------------------------------------------
  // Bootstrap of the default list

  /** After the seeding visit, the next visit renders exactly the three starter items. */
  lemma SeedThenRender(lists: map<string, seq<Item>>, nextId: Id)
    ensures var seeded := GetRoot(Db([], lists, nextId), NoFault);
      && seeded == Response(Db(DEFAULT_ITEMS, lists, nextId), Redirect("/"))
      && GetRoot(seeded.db, NoFault) == Response(seeded.db, Render(TODAY, DEFAULT_ITEMS))
  {
  }

  // ---------------------------------------------------------------------------------------
  // Custom lists

  /** Names that differ only in letter case reach the same list with the same outcome. */
  lemma CaseVariantsResolveAlike(db: Db, a: string, b: string, fault: Fault)
    requires EqualIgnoringCase(a, b)
    ensures GetCustom(db, a, fault) == GetCustom(db, b, fault)
  {
    CapitalizeCaseInsensitive(a, b);
  }

  /** A list created by one visit is rendered, unchanged, by the next visit under any
      spelling of its name that differs only in letter case. */
  lemma CreateThenRevisit(db: Db, a: string, b: string, fault: Fault)
    requires Capitalize(a) !in db.lists
    requires EqualIgnoringCase(a, b)
    requires fault != ReadFault
    ensures var created := GetCustom(db, a, NoFault).db;
      && created.lists == db.lists[Capitalize(a) := DEFAULT_ITEMS]
      && GetCustom(created, b, fault) == Response(created, Render(Capitalize(a), DEFAULT_ITEMS))
  {
    CapitalizeCaseInsensitive(a, b);
  }

  /** Visiting `/today` makes a List document named "Today", which add and delete requests
      never reach: they take that name to mean the Item collection. */
  lemma TodayListIsShadowed(db: Db, newItem: string, checkbox: Id, fault: Fault)
    requires TODAY !in db.lists
    ensures var created := GetCustom(db, "today", NoFault).db;
      && TODAY in created.lists
      && PostAdd(created, newItem, TODAY, fault).db.lists == created.lists
      && PostDelete(created, checkbox, TODAY, fault).db.lists == created.lists
  {
    assert Capitalize("today") == TODAY;
  }

  // ---------------------------------------------------------------------------------------
  // Adding and deleting

  /** The add path looks names up exactly: on a reachable state a name that is not in
      normalised form never matches a list, so the request fails. */
  lemma AddToUnnormalizedNameFails(db: Db, newItem: string, listName: string, fault: Fault)
    requires Valid(db)
    requires listName != TODAY && Capitalize(listName) != listName
    ensures PostAdd(db, newItem, listName, fault) ==
      Response(db.(nextId := db.nextId + 1), Fail)
  {
  }

  /** Deleting the item at index k of Today removes exactly that item, keeping the order of
      the rest. */
  lemma DeleteFromTodayAt(db: Db, k: nat, fault: Fault)
    requires Valid(db)
    requires k < |db.items| && fault != WriteFault
    ensures PostDelete(db, db.items[k].id, TODAY, fault).db.items == db.items[..k] + db.items[k+1..]
  {
    RemoveIdAt(db.items, k);
  }

  /** Deleting the item at index k of a custom list removes exactly that item. */
  lemma DeleteFromListAt(db: Db, listName: string, k: nat, fault: Fault)
    requires Valid(db)
    requires listName != TODAY && listName in db.lists
    requires k < |db.lists[listName]| && fault != WriteFault
    ensures var s := db.lists[listName];
      PostDelete(db, s[k].id, listName, fault).db.lists[listName] == s[..k] + s[k+1..]
  {
    RemoveIdAt(db.lists[listName], k);
  }

  /** Deleting an id that the target list does not hold changes nothing. */
  lemma DeleteAbsentIsNoOp(db: Db, checkbox: Id, listName: string, fault: Fault)
    requires listName == TODAY ==> checkbox !in Ids(db.items)
    requires listName != TODAY && listName in db.lists ==> checkbox !in Ids(db.lists[listName])
    ensures PostDelete(db, checkbox, listName, fault).db == db
  {
    if listName == TODAY {
      RemoveIdAbsent(db.items, checkbox);
    } else if listName in db.lists {
      RemoveIdAbsent(db.lists[listName], checkbox);
      assert db.lists[listName := db.lists[listName]] == db.lists;
    }
  }

  /** Deleting the item just added to Today gives back Today and the lists as they were. */
  lemma AddThenDeleteToday(db: Db, newItem: string)
    requires Valid(db)
    ensures var added := PostAdd(db, newItem, TODAY, NoFault).db;
      var deleted := PostDelete(added, db.nextId, TODAY, NoFault).db;
      deleted.items == db.items && deleted.lists == db.lists
  {
    FreshIdUnused(db);
    RemoveIdAppended(db.items, Item(db.nextId, newItem));
  }

  /** Deleting the item just added to a custom list gives back every list as it was. */
  lemma AddThenDeleteList(db: Db, newItem: string, listName: string)
    requires Valid(db)
    requires listName != TODAY && listName in db.lists
    ensures var added := PostAdd(db, newItem, listName, NoFault).db;
      var deleted := PostDelete(added, db.nextId, listName, NoFault).db;
      deleted.items == db.items && deleted.lists == db.lists
  {
    FreshIdUnused(db);
    RemoveIdAppended(db.lists[listName], Item(db.nextId, newItem));
    var added := PostAdd(db, newItem, listName, NoFault).db;
    var deleted := PostDelete(added, db.nextId, listName, NoFault).db;
    assert deleted.lists == db.lists[listName := db.lists[listName]];
  }
}
