/** The application's store as one object whose collections the route handlers update in
    place: the Item collection (the Today list), the List collection and the source of fresh
    ObjectIds. Each handler is a method whose new state and outcome are those of the
    corresponding function of `Routes`, and which keeps `Routes.Valid`. */
module TodoApp {
  import Names
  import opened Items
  import opened Routes

  class Store {
    var items: seq<Item>
    var lists: map<string, seq<Item>>
    var nextId: Id

    /** The abstract state the routes are specified over. */
    function Snapshot(): Db
      reads this
    {
      Db(items, lists, nextId)
    }

    ghost predicate Valid()
      reads this
    {
      Routes.Valid(Snapshot())
    }

    /** An empty database; the default items already hold the first three ids. */
    constructor ()
      ensures Valid()
      ensures items == [] && lists == map[] && nextId == FIRST_FRESH_ID
    {
      items := [];
      lists := map[];
      nextId := FIRST_FRESH_ID;
    }

    method GetRoot(fault: Fault) returns (out: Outcome)
      requires Valid()
      modifies this
      ensures Valid()
      ensures Response(Snapshot(), out) == Routes.GetRoot(old(Snapshot()), fault)
    {
      GetRootPreservesValid(Snapshot(), fault);
      if fault == ReadFault {
        out := NoResponse;
      } else if |items| == 0 {
        if fault != WriteFault {
          items := DEFAULT_ITEMS;  // insertMany
        }
        out := Redirect("/");
      } else {
        out := Render(TODAY, items);
      }
    }

    method GetCustom(customListName: string, fault: Fault) returns (out: Outcome)
      requires Valid()
      modifies this
      ensures Valid()
      ensures Response(Snapshot(), out) == Routes.GetCustom(old(Snapshot()), customListName, fault)
    {
      GetCustomPreservesValid(Snapshot(), customListName, fault);
      var name := Names.Capitalize(customListName);
      if fault == ReadFault {
        out := NoResponse;
      } else if name in lists {
        out := Render(name, lists[name]);
      } else if fault == WriteFault {
        out := NoResponse;
      } else {
        lists := lists[name := DEFAULT_ITEMS];  // list.save of a new List
        out := Redirect("/" + name);
      }
    }

    method PostAdd(newItem: string, list: string, fault: Fault) returns (out: Outcome)
      requires Valid()
      modifies this
      ensures Valid()
      ensures Response(Snapshot(), out) == Routes.PostAdd(old(Snapshot()), newItem, list, fault)
    {
      PostAddPreservesValid(Snapshot(), newItem, list, fault);
      var item := Item(nextId, newItem);
      nextId := nextId + 1;
      if list == TODAY {
        if fault == WriteFault {
          out := NoResponse;
        } else {
          items := items + [item];  // item.save
          out := Redirect("/");
        }
      } else if fault == ReadFault || list !in lists {
        out := Fail;
      } else if fault == WriteFault {
        out := NoResponse;
      } else {
        var found := lists[list];
        found := found + [item];  // foundList.items.push
        lists := lists[list := found];  // foundList.save
        out := Redirect("/" + list);
      }
    }

    method PostDelete(checkbox: Id, listName: string, fault: Fault) returns (out: Outcome)
      requires Valid()
      modifies this
      ensures Valid()
      ensures Response(Snapshot(), out) == Routes.PostDelete(old(Snapshot()), checkbox, listName, fault)
    {
      PostDeletePreservesValid(Snapshot(), checkbox, listName, fault);
      if listName == TODAY {
        if fault != WriteFault {
          items := RemoveId(items, checkbox);  // findByIdAndDelete
        }
        out := Redirect("/");
      } else if fault == WriteFault {
        out := NoResponse;
      } else {
        if listName in lists {
          lists := lists[listName := RemoveId(lists[listName], checkbox)];  // $pull
        }
        out := Redirect("/" + listName);
      }
    }
  }
}
