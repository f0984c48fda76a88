/** The favourites slice: an ordered list of sports, leagues and teams,
    deduplicated by one derived identifier shared across the three kinds. */
module Favourites {
  import opened Js
  import opened Types

  /** The identifier of a favourite: `idSport || idLeague || idTeam`. The
      first truthy one wins; when none is truthy the result is `idTeam` as
      it stands, possibly `undefined` or empty. */
  function ItemId(x: Item): (r: Option<string>)
    ensures Truthy(x.idSport) ==> r == x.idSport
    ensures !Truthy(x.idSport) && Truthy(x.idLeague) ==> r == x.idLeague
    ensures !Truthy(x.idSport) && !Truthy(x.idLeague) ==> r == x.idTeam
  {
    Or(Or(x.idSport, x.idLeague), x.idTeam)
  }

  /** Some item of the list has identifier `id` (`items.some(...)`). */
  predicate HasId(items: seq<Item>, id: Option<string>) {
    exists k :: 0 <= k < |items| && ItemId(items[k]) == id
  }

  /** No two items of the list share an identifier. */
  ghost predicate Unique(items: seq<Item>) {
    forall i, j :: 0 <= i < j < |items| ==> ItemId(items[i]) != ItemId(items[j])
  }

  /** `addFavourite`: append the item unless one with its identifier is
      already present. */
  function Add(items: seq<Item>, x: Item): (r: seq<Item>)
    ensures |items| <= |r| <= |items| + 1
    ensures r[..|items|] == items
    ensures HasId(r, ItemId(x))
    ensures |r| == |items| <==> HasId(items, ItemId(x))
    ensures |r| > |items| ==> r[|items|] == x
    ensures Unique(items) ==> Unique(r)
  {
    if HasId(items, ItemId(x)) then items
    else
      assert (items + [x])[|items|] == x;
      items + [x]
  }

  /** `removeFavourite`: keep, in order, the items whose identifier differs
      from `id`. */
  function Remove(items: seq<Item>, id: Option<string>): (r: seq<Item>)
    ensures |r| <= |items|
    ensures !HasId(r, id)
    decreases |items|
  {
    if |items| == 0 then []
    else if ItemId(items[0]) != id then [items[0]] + Remove(items[1..], id)
    else Remove(items[1..], id)
  }

  /** An item survives removal exactly when it was in the list with another
      identifier. */
  lemma {:induction false} RemoveMembers(items: seq<Item>, id: Option<string>)
    ensures forall x :: x in Remove(items, id) <==> x in items && ItemId(x) != id
    decreases |items|
  {
    if |items| > 0 {
      RemoveMembers(items[1..], id);
      assert items == [items[0]] + items[1..];
    }
  }

  /** Removal distributes over concatenation; together with its effect on a
      single item this pins `Remove` down as the order-preserving filter. */
  lemma {:induction false} RemoveAppend(a: seq<Item>, b: seq<Item>, id: Option<string>)
    ensures Remove(a + b, id) == Remove(a, id) + Remove(b, id)
    decreases |a|
  {
    if |a| == 0 {
      assert a + b == b;
    } else {
      assert (a + b)[1..] == a[1..] + b;
      RemoveAppend(a[1..], b, id);
    }
  }

  /** Removing an identifier nobody has leaves the list as it was. */
  lemma {:induction false} RemoveAbsent(items: seq<Item>, id: Option<string>)
    requires !HasId(items, id)
    ensures Remove(items, id) == items
    decreases |items|
  {
    if |items| > 0 {
      RemoveAbsent(items[1..], id);
    }
  }

  /** Removing an identifier that is present makes the list shorter. */
  lemma {:induction false} RemoveShrinks(items: seq<Item>, id: Option<string>)
    ensures HasId(items, id) ==> |Remove(items, id)| < |items|
    decreases |items|
  {
    if |items| > 0 && HasId(items, id) && ItemId(items[0]) != id {
      var k :| 0 <= k < |items| && ItemId(items[k]) == id;
      assert ItemId(items[1..][k - 1]) == id;
      RemoveShrinks(items[1..], id);
    }
  }

  /** In a duplicate-free list, removing the identifier of the item at
      position `i` removes exactly that item. */
  lemma {:induction false} RemoveUniqueAt(items: seq<Item>, i: nat)
    requires Unique(items) && i < |items|
    ensures Remove(items, ItemId(items[i])) == items[..i] + items[i + 1..]
    decreases i
  {
    var id := ItemId(items[i]);
    var tail := items[1..];
    UniqueTail(items);
    if i == 0 {
      RemoveHead(items);
    } else {
      assert ItemId(items[0]) != id;
      assert tail[i - 1] == items[i];
      RemoveUniqueAt(tail, i - 1);
      var rest := Remove(tail, id);
      assert rest == tail[..i - 1] + tail[i..];
      assert Remove(items, id) == [items[0]] + rest;
      assert items[..i] == [items[0]] + tail[..i - 1];
      assert items[i + 1..] == tail[i..];
      assert [items[0]] + (tail[..i - 1] + tail[i..]) == items[..i] + items[i + 1..];
    }
  }

  /** In a duplicate-free list, removing the first item's identifier leaves the rest. */
  lemma RemoveHead(items: seq<Item>)
    requires Unique(items) && |items| > 0
    ensures Remove(items, ItemId(items[0])) == items[1..]
  {
    var id := ItemId(items[0]);
    var tail := items[1..];
    assert !HasId(tail, id) by {
      forall k | 0 <= k < |tail| ensures ItemId(tail[k]) != id {
        assert tail[k] == items[k + 1];
      }
    }
    RemoveAbsent(tail, id);
  }

  /** Dropping the first item keeps a list duplicate-free. */
  lemma UniqueTail(items: seq<Item>)
    requires Unique(items) && |items| > 0
    ensures Unique(items[1..])
  {
    var tail := items[1..];
    forall i, j | 0 <= i < j < |tail|
      ensures ItemId(tail[i]) != ItemId(tail[j])
    {
      assert tail[i] == items[i + 1] && tail[j] == items[j + 1];
    }
  }

  /** Removal keeps the list free of duplicate identifiers. */
  lemma {:induction false} RemovePreservesUnique(items: seq<Item>, id: Option<string>)
    ensures Unique(items) ==> Unique(Remove(items, id))
    decreases |items|
  {
    if |items| > 0 && Unique(items) {
      var tail := items[1..];
      UniqueTail(items);
      RemovePreservesUnique(tail, id);
      RemoveMembers(tail, id);
      if ItemId(items[0]) != id {
        var rest := Remove(tail, id);
        var r := [items[0]] + rest;
        forall i, j | 0 <= i < j < |r|
          ensures ItemId(r[i]) != ItemId(r[j])
        {
          if i == 0 {
            assert r[j] == rest[j - 1] && rest[j - 1] in tail;
            var k :| 0 <= k < |tail| && tail[k] == r[j];
            assert tail[k] == items[k + 1];
          } else {
            assert r[i] == rest[i - 1] && r[j] == rest[j - 1];
          }
        }
      }
    }
  }

  /** Adding the same item twice is the same as adding it once. */
  lemma AddIdempotent(items: seq<Item>, x: Item)
    ensures Add(Add(items, x), x) == Add(items, x)
  {
  }

  /** The favourites after a run of `addFavourite` calls, oldest first. */
  function AddAll(items: seq<Item>, xs: seq<Item>): seq<Item>
    decreases |xs|
  {
    if |xs| == 0 then items else AddAll(Add(items, xs[0]), xs[1..])
  }

  /** Whatever items are added, in whatever order and however often, starting
      from the empty list no identifier ever occurs twice. */
  lemma {:induction false} AddAllUnique(items: seq<Item>, xs: seq<Item>)
    requires Unique(items)
    ensures Unique(AddAll(items, xs))
    decreases |xs|
  {
    if |xs| > 0 {
      AddAllUnique(Add(items, xs[0]), xs[1..]);
    }
  }

  /** Removing an identifier and then adding an item with that identifier
      leaves exactly one entry with it: the item itself, at the end. */
  lemma RemoveThenAdd(items: seq<Item>, x: Item)
    ensures var r := Add(Remove(items, ItemId(x)), x);
      && |r| > 0 && r[|r| - 1] == x
      && forall k :: 0 <= k < |r| - 1 ==> ItemId(r[k]) != ItemId(x)
  {
    var removed := Remove(items, ItemId(x));
    assert !HasId(removed, ItemId(x));
  }

  datatype FavouritesState = FavouritesState(items: seq<Item>)

  const InitialState := FavouritesState([])

  datatype Action =
    | AddFavourite(item: Item)
    | RemoveFavourite(id: Option<string>)
    | SetFavourites(payload: seq<Item>)
    | ClearFavourites

  /** The slice reducer. `setFavourites` takes its payload as it is, without
      deduplicating; every other action keeps identifiers unique. */
  function Reduce(s: FavouritesState, a: Action): (r: FavouritesState)
    ensures a.SetFavourites? ==> r.items == a.payload
    ensures a.ClearFavourites? ==> r.items == []
    ensures a.RemoveFavourite? ==> r.items == Remove(s.items, a.id)
    ensures a.AddFavourite? ==>
      r.items == (if HasId(s.items, ItemId(a.item)) then s.items else s.items + [a.item])
    ensures Unique(s.items) && !a.SetFavourites? ==> Unique(r.items)
  {
    match a
    case AddFavourite(x) => FavouritesState(Add(s.items, x))
    case RemoveFavourite(id) =>
      RemovePreservesUnique(s.items, id);
      FavouritesState(Remove(s.items, id))
    case SetFavourites(payload) => FavouritesState(payload)
    case ClearFavourites => FavouritesState([])
  }

  /** `setFavourites` can install duplicates: the uniqueness invariant holds
      after it only when its payload already has it. */
  lemma SetFavouritesKeepsDuplicates()
    ensures var x := Blank.(idLeague := Some("4328"));
      !Unique(Reduce(InitialState, SetFavourites([x, x])).items)
  {
    var x := Blank.(idLeague := Some("4328"));
    var r := Reduce(InitialState, SetFavourites([x, x])).items;
    assert ItemId(r[0]) == ItemId(r[1]);
  }

  /** Adding a league with `idLeague = "4328"` twice in a row yields one entry. */
  lemma AddLeagueTwice()
    ensures var x := Blank.(idLeague := Some("4328"));
      |Reduce(Reduce(InitialState, AddFavourite(x)), AddFavourite(x)).items| == 1
  {
  }
}
