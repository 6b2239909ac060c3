/** The game-type registry: seeding the defaults into an empty collection,
    listing the types by their `order` field, adding a type at the end of the
    order, and deleting any type but "Other". */
module GameTypes {
  import opened Wrappers
  import opened Seqs

  /** A document of the `game_types` collection with its store-assigned id.
      `order` is `None` for a document that lacks the field. */
  datatype GameType = GameType(id: nat, name: string, order: Option<int>)

  datatype AddTypeOutcome = EmptyName | AlreadyExists | Added(order: int)

  const DefaultNames: seq<string> :=
    ["Card Game", "Board Game", "Puzzle Game", "Adventure Game", "Party Game", "Other"]
  const ProtectedName: string := "Other"

  /** The six default types with orders 1 to 6, given consecutive ids from `firstId`. */
  function Defaults(firstId: nat): (ds: seq<GameType>)
    ensures |ds| == |DefaultNames|
    ensures forall k :: 0 <= k < |ds| ==> ds[k].name == DefaultNames[k] && ds[k].order == Some(k + 1)
    ensures IdsFresh(ds, firstId + |DefaultNames|)
  {
    seq(|DefaultNames|, k requires 0 <= k < |DefaultNames| => GameType(firstId + k, DefaultNames[k], Some(k + 1)))
  }

  /** Store ids are distinct and below the next id the store will hand out. */
  predicate IdsFresh(types: seq<GameType>, nextId: nat) {
    && (forall i :: 0 <= i < |types| ==> types[i].id < nextId)
    && (forall i, j :: 0 <= i < j < |types| ==> types[i].id != types[j].id)
  }

  // ------------------------------------------------------ order_by("order")

  function OrderOf(t: GameType): int {
    t.order.GetOr(0)
  }

  /** The store's ordering: by `order`, ties broken by document id. */
  predicate InOrder(a: GameType, b: GameType) {
    OrderOf(a) < OrderOf(b) || (OrderOf(a) == OrderOf(b) && a.id <= b.id)
  }

  predicate SortedByOrder(s: seq<GameType>) {
    forall i, j :: 0 <= i < j < |s| ==> InOrder(s[i], s[j])
  }

  function HasOrder(): GameType -> bool {
    (t: GameType) => t.order.Some?
  }

  function InsertSorted(t: GameType, s: seq<GameType>): seq<GameType> {
    if s == [] then [t]
    else if InOrder(t, s[0]) then [t] + s
    else [s[0]] + InsertSorted(t, s[1..])
  }

  /** Insertion sort; the store's sort itself is not part of this model. */
  function SortByOrder(s: seq<GameType>): seq<GameType> {
    if s == [] then [] else InsertSorted(s[0], SortByOrder(s[1..]))
  }

  lemma PrependSorted(x: GameType, r: seq<GameType>)
    requires SortedByOrder(r)
    requires forall k :: 0 <= k < |r| ==> InOrder(x, r[k])
    ensures SortedByOrder([x] + r)
  {
    var xr := [x] + r;
    forall i, j | 0 <= i < j < |xr| ensures InOrder(xr[i], xr[j]) {
      if i > 0 {
        assert xr[i] == r[i - 1] && xr[j] == r[j - 1];
      } else {
        assert xr[j] == r[j - 1];
      }
    }
  }

  lemma {:induction false} InsertSortedCorrect(t: GameType, s: seq<GameType>)
    requires SortedByOrder(s)
    ensures SortedByOrder(InsertSorted(t, s))
    ensures multiset(InsertSorted(t, s)) == multiset(s) + multiset{t}
    decreases |s|
  {
    if s == [] {
    } else if InOrder(t, s[0]) {
      forall k | 0 <= k < |s| ensures InOrder(t, s[k]) {
        if k > 0 {
          assert InOrder(s[0], s[k]);
        }
      }
      PrependSorted(t, s);
    } else {
      InsertSortedCorrect(t, s[1..]);
      InsertAfterHead(t, s);
    }
  }

  /** The step of insertion past the head: the head stays in front. */
  lemma InsertAfterHead(t: GameType, s: seq<GameType>)
    requires s != [] && SortedByOrder(s) && !InOrder(t, s[0])
    requires SortedByOrder(InsertSorted(t, s[1..]))
    requires multiset(InsertSorted(t, s[1..])) == multiset(s[1..]) + multiset{t}
    ensures SortedByOrder(InsertSorted(t, s))
    ensures multiset(InsertSorted(t, s)) == multiset(s) + multiset{t}
  {
    var rest := InsertSorted(t, s[1..]);
    assert s == [s[0]] + s[1..];
    forall k | 0 <= k < |rest| ensures InOrder(s[0], rest[k]) {
      assert rest[k] in multiset(s[1..]) + multiset{t};
      if rest[k] != t {
        assert rest[k] in s[1..];
      }
    }
    PrependSorted(s[0], rest);
  }

  lemma {:induction false} SortByOrderCorrect(s: seq<GameType>)
    ensures SortedByOrder(SortByOrder(s))
    ensures multiset(SortByOrder(s)) == multiset(s)
  {
    if s != [] {
      SortByOrderCorrect(s[1..]);
      InsertSortedCorrect(s[0], SortByOrder(s[1..]));
      assert s == [s[0]] + s[1..];
    }
  }

  /** What the store streams for `order_by("order")`: the documents that have
      an `order` field, sorted. */
  function OrderBy(types: seq<GameType>): seq<GameType> {
    SortByOrder(Filter(types, HasOrder()))
  }

  lemma OrderByContents(types: seq<GameType>)
    ensures SortedByOrder(OrderBy(types))
    ensures forall t :: t in OrderBy(types) <==> t in types && t.order.Some?
    ensures forall t :: multiset(OrderBy(types))[t] == if t.order.Some? then multiset(types)[t] else 0
  {
    var kept := Filter(types, HasOrder());
    SortByOrderCorrect(kept);
    forall t ensures multiset(OrderBy(types))[t] == if t.order.Some? then multiset(types)[t] else 0 {
      FilterMultiplicity(types, HasOrder(), t);
    }
    forall t ensures t in OrderBy(types) <==> t in types && t.order.Some? {
      calc {
        t in OrderBy(types);
        t in multiset(OrderBy(types));
        t in multiset(kept);
        t in kept;
      }
      if t in types && t.order.Some? {
        var i :| 0 <= i < |types| && types[i] == t;
        assert HasOrder()(types[i]);
      }
    }
  }

  // ------------------------------------------------------------ adding

  /** `any(gt['name'] == name for gt in game_types)`. */
  predicate NameListed(listed: seq<GameType>, name: string) {
    exists k :: 0 <= k < |listed| && listed[k].name == name
  }

  /** `max([gt.get('order', 0) for gt in game_types], default=0)`. */
  function MaxOrder(listed: seq<GameType>): (m: int)
    ensures forall k :: 0 <= k < |listed| ==> OrderOf(listed[k]) <= m
    ensures listed == [] ==> m == 0
    ensures listed != [] ==> exists k :: 0 <= k < |listed| && OrderOf(listed[k]) == m
  {
    if listed == [] then 0
    else if |listed| == 1 then OrderOf(listed[0])
    else
      var rest := MaxOrder(listed[1..]);
      if OrderOf(listed[0]) >= rest then OrderOf(listed[0]) else rest
  }

  /** A new type's order is above the order of every document that has one,
      and 1 when no document has one. */
  lemma NewOrderAboveAll(types: seq<GameType>)
    ensures forall t :: t in types && t.order.Some? ==> t.order.value < MaxOrder(OrderBy(types)) + 1
    ensures (forall t :: t in types ==> t.order.None?) ==> MaxOrder(OrderBy(types)) + 1 == 1
  {
    OrderByContents(types);
    var listed := OrderBy(types);
    forall t | t in types && t.order.Some? ensures t.order.value < MaxOrder(listed) + 1 {
      var k :| 0 <= k < |listed| && listed[k] == t;
    }
    if forall t :: t in types ==> t.order.None? {
      if listed != [] {
        assert listed[0] in types;
      }
    }
  }

  // ------------------------------------------------------------ deleting

  function IdIsNot(id: nat): GameType -> bool {
    (t: GameType) => t.id != id
  }

  /** The page offers a Delete button for each listed type except "Other". */
  predicate DeleteOffered(listed: seq<GameType>, id: nat) {
    exists k :: 0 <= k < |listed| && listed[k].id == id && listed[k].name != ProtectedName
  }

  /** Deleting by an id no document of `s` has keeps all of `s`. */
  lemma FilterOtherIds(s: seq<GameType>, id: nat)
    requires forall i :: 0 <= i < |s| ==> s[i].id != id
    ensures Filter(s, IdIsNot(id)) == s
  {
    var p := IdIsNot(id);
    forall i | 0 <= i < |s| ensures p(s[i]) {
    }
    FilterKeepsAll(s, p);
  }

  /** Deleting by a unique id removes exactly that one document. */
  lemma RemoveUniqueId(types: seq<GameType>, k: nat)
    requires k < |types|
    requires forall i, j :: 0 <= i < j < |types| ==> types[i].id != types[j].id
    ensures Filter(types, IdIsNot(types[k].id)) == types[..k] + types[k + 1..]
  {
    var id := types[k].id;
    var p := IdIsNot(id);
    var front, back := types[..k], types[k + 1..];
    SplitAround(types, k);
    forall i | 0 <= i < |front| ensures front[i].id != id {
      assert front[i] == types[i];
    }
    forall i | 0 <= i < |back| ensures back[i].id != id {
      assert back[i] == types[k + 1 + i];
    }
    FilterOtherIds(front, id);
    FilterOtherIds(back, id);
    FilterSkip(front, types[k], back, p);
  }

  /** A Delete button is shown for exactly the listed types other than "Other". */
  lemma DeleteOfferedIff(types: seq<GameType>, id: nat)
    ensures DeleteOffered(OrderBy(types), id) <==>
            exists t :: t in types && t.id == id && t.order.Some? && t.name != ProtectedName
  {
    OrderByContents(types);
    var listed := OrderBy(types);
    if exists t :: t in types && t.id == id && t.order.Some? && t.name != ProtectedName {
      var t :| t in types && t.id == id && t.order.Some? && t.name != ProtectedName;
      var k :| 0 <= k < |listed| && listed[k] == t;
    }
  }

  /** Removing one document keeps the ids fresh and keeps every other document. */
  lemma RemoveOne(types: seq<GameType>, k: nat, nextId: nat)
    requires k < |types| && IdsFresh(types, nextId)
    ensures IdsFresh(types[..k] + types[k + 1..], nextId)
    ensures forall i :: 0 <= i < |types| && i != k ==> types[i] in types[..k] + types[k + 1..]
  {
    var rest := types[..k] + types[k + 1..];
    forall i | 0 <= i < |rest| ensures rest[i] == types[if i < k then i else i + 1] {
    }
    forall i | 0 <= i < |types| && i != k ensures types[i] in rest {
      assert types[i] == rest[if i < k then i else i - 1];
    }
  }

  /** Deleting a document other than "Other" by its unique id removes just
      that document: ids stay fresh and every "Other" document survives. */
  lemma DeleteKeepsOther(types: seq<GameType>, k: nat, nextId: nat)
    requires k < |types| && IdsFresh(types, nextId) && types[k].name != ProtectedName
    ensures Filter(types, IdIsNot(types[k].id)) == types[..k] + types[k + 1..]
    ensures IdsFresh(types[..k] + types[k + 1..], nextId)
    ensures forall t :: t in types && t.name == ProtectedName ==> t in types[..k] + types[k + 1..]
  {
    RemoveUniqueId(types, k);
    RemoveOne(types, k, nextId);
    forall t | t in types && t.name == ProtectedName ensures t in types[..k] + types[k + 1..] {
      var i :| 0 <= i < |types| && types[i] == t;
      assert i != k;
    }
  }

  // ------------------------------------------------------------ the collection

  /** The `game_types` collection in insertion order, with the id counter that
      stands in for the store's document ids. */
  class GameTypeRegistry {
    var types: seq<GameType>
    var nextId: nat

    predicate Valid()
      reads this
    {
      IdsFresh(types, nextId)
    }

    constructor (types: seq<GameType>, nextId: nat)
      requires IdsFresh(types, nextId)
      ensures Valid() && this.types == types && this.nextId == nextId
    {
      this.types := types;
      this.nextId := nextId;
    }

    /** `collection.add(...)`: a new document with a fresh id. */
    method AddDocument(name: string, order: int)
      requires Valid()
      modifies this
      ensures Valid()
      ensures types == old(types) + [GameType(old(nextId), name, Some(order))]
      ensures nextId == old(nextId) + 1
    {
      types := types + [GameType(nextId, name, Some(order))];
      nextId := nextId + 1;
    }

    /** Seeds the six defaults, in order, only into an empty collection. */
    method SetupGameTypes()
      requires Valid()
      modifies this
      ensures Valid()
      ensures old(types) == [] ==> types == Defaults(old(nextId)) && nextId == old(nextId) + |DefaultNames|
      ensures old(types) != [] ==> types == old(types) && nextId == old(nextId)
    {
      if |types| == 0 {
        ghost var firstId := nextId;
        var k := 0;
        while k < |DefaultNames|
          invariant 0 <= k <= |DefaultNames|
          invariant Valid()
          invariant nextId == firstId + k
          invariant types == Defaults(firstId)[..k]
        {
          AddDocument(DefaultNames[k], k + 1);
          k := k + 1;
        }
      }
    }

    /** The types as the page lists them: streamed in the store's order and
        copied one by one with their ids. */
    method LoadGameTypes() returns (loaded: seq<GameType>)
      ensures loaded == OrderBy(types)
      ensures SortedByOrder(loaded)
      ensures forall t :: t in loaded <==> t in types && t.order.Some?
    {
      var streamed := OrderBy(types);
      loaded := [];
      for i := 0 to |streamed|
        invariant loaded == streamed[..i]
      {
        loaded := loaded + [streamed[i]];
      }
      OrderByContents(types);
    }

    /** The "Add Game Type" button with a name typed in. */
    method AddGameType(newName: string) returns (outcome: AddTypeOutcome)
      requires Valid()
      modifies this
      ensures Valid()
      ensures outcome == EmptyName <==> newName == ""
      ensures outcome == AlreadyExists <==>
                newName != "" && exists t :: t in old(types) && t.order.Some? && t.name == newName
      ensures !outcome.Added? ==> types == old(types) && nextId == old(nextId)
      ensures outcome.Added? ==>
                && outcome.order == MaxOrder(OrderBy(old(types))) + 1
                && types == old(types) + [GameType(old(nextId), newName, Some(outcome.order))]
                && nextId == old(nextId) + 1
                && (forall t :: t in old(types) && t.order.Some? ==> t.order.value < outcome.order)
                && ((forall t :: t in old(types) ==> t.order.None?) ==> outcome.order == 1)
    {
      var gameTypes := LoadGameTypes();
      if newName == "" {
        outcome := EmptyName;
      } else if NameListed(gameTypes, newName) {
        outcome := AlreadyExists;
      } else {
        var newOrder := MaxOrder(gameTypes) + 1;
        NewOrderAboveAll(types);
        AddDocument(newName, newOrder);
        outcome := Added(newOrder);
      }
    }

    /** A Delete button press for the type with store id `id`; only a button
        the page shows does anything. */
    method DeleteGameType(id: nat) returns (deleted: bool)
      requires Valid()
      modifies this
      ensures Valid() && nextId == old(nextId)
      ensures deleted <==> exists t :: t in old(types) && t.id == id && t.order.Some? && t.name != ProtectedName
      ensures deleted ==> exists k :: 0 <= k < |old(types)| && old(types)[k].id == id
                                      && types == old(types)[..k] + old(types)[k + 1..]
      ensures !deleted ==> types == old(types)
      ensures forall t :: t in old(types) && t.name == ProtectedName ==> t in types
    {
      var gameTypes := LoadGameTypes();
      deleted := DeleteOffered(gameTypes, id);
      DeleteOfferedIff(types, id);
      if deleted {
        var t :| t in types && t.id == id && t.order.Some? && t.name != ProtectedName;
        var k :| 0 <= k < |types| && types[k] == t;
        DeleteKeepsOther(types, k, nextId);
        types := Filter(types, IdIsNot(id));
      }
    }
  }
}
