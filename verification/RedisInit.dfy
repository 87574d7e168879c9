/** `RedisCore.init`: one transaction that replaces whole namespaces. */
module RedisInit {
  import opened Base

  datatype RedisValue = Text(text: string) | Hash(fields: map<string, string>)

  type Database = map<string, RedisValue>

  datatype Command =
    | Del(key: string)
    | Hmset(key: string, fields: map<string, string>)
    | SetText(key: string, text: string)

  datatype KeyedItem = KeyedItem(key: string, serializedItem: Option<string>)

  datatype Collection = Collection(namespace: string, items: seq<KeyedItem>)

  function Apply(db: Database, command: Command): Database {
    match command
    case Del(k) => db - {k}
    case Hmset(k, fields) =>
      db[k := Hash((if k in db && db[k].Hash? then db[k].fields else map[]) + fields)]
    case SetText(k, text) => db[k := Text(text)]
  }

  /** EXEC: the commands in order, all or nothing. */
  function ApplyAll(db: Database, commands: seq<Command>): Database {
    if |commands| == 0 then db
    else Apply(ApplyAll(db, commands[..|commands| - 1]), commands[|commands| - 1])
  }

  function PrefixedKey(prefix: string, key: string): string {
    prefix + ":" + key
  }

  /** The items that exist; a later item with the same key wins. */
  function Content(items: seq<KeyedItem>): map<string, string> {
    if |items| == 0 then map[]
    else
      var last, rest := items[|items| - 1], Content(items[..|items| - 1]);
      if last.serializedItem.Some? then rest[last.key := last.serializedItem.value] else rest
  }

  /** The last collection with a namespace, if there is one. */
  function Latest(allData: seq<Collection>, namespace: string): Option<Collection> {
    if |allData| == 0 then None
    else if allData[|allData| - 1].namespace == namespace then Some(allData[|allData| - 1])
    else Latest(allData[..|allData| - 1], namespace)
  }

  /** What the transaction leaves at a key of the database. */
  function Replaced(db: Database, prefix: string, allData: seq<Collection>, namespace: string): Option<RedisValue> {
    match Latest(allData, namespace)
    case None => if PrefixedKey(prefix, namespace) in db then Some(db[PrefixedKey(prefix, namespace)]) else None
    case Some(c) => if Content(c.items) == map[] then None else Some(Hash(Content(c.items)))
  }

  predicate HoldsAt(db: Database, key: string, value: Option<RedisValue>) {
    match value
    case None => key !in db
    case Some(v) => key in db && db[key] == v
  }

  /** Every namespace holds what its last collection gives it, or what it held before. */
  ghost predicate ReplacedBy(db: Database, after: Database, prefix: string, allData: seq<Collection>) {
    && (forall ns :: HoldsAt(after, PrefixedKey(prefix, ns), Replaced(db, prefix, allData, ns)))
    && (forall key :: (forall ns :: key != PrefixedKey(prefix, ns)) ==> (key in after <==> key in db) && (key in db ==> after[key] == db[key]))
  }

  lemma PrefixInjective(prefix: string, a: string, b: string)
    requires PrefixedKey(prefix, a) == PrefixedKey(prefix, b)
    ensures a == b
  {
    assert PrefixedKey(prefix, a)[|prefix| + 1..] == a && PrefixedKey(prefix, b)[|prefix| + 1..] == b;
  }

  /** One collection more: its namespace is replaced, the others stay. */
  lemma ReplaceOne(db: Database, before: Database, prefix: string, allData: seq<Collection>, c: Collection, after: Database)
    requires ReplacedBy(db, before, prefix, allData)
    requires after == if Content(c.items) == map[] then before - {PrefixedKey(prefix, c.namespace)}
                      else before[PrefixedKey(prefix, c.namespace) := Hash(Content(c.items))]
    ensures ReplacedBy(db, after, prefix, allData + [c])
  {
    assert (allData + [c])[..|allData|] == allData;
    forall ns
      ensures HoldsAt(after, PrefixedKey(prefix, ns), Replaced(db, prefix, allData + [c], ns))
    {
      assert HoldsAt(before, PrefixedKey(prefix, ns), Replaced(db, prefix, allData, ns));
      if PrefixedKey(prefix, ns) == PrefixedKey(prefix, c.namespace) {
        PrefixInjective(prefix, ns, c.namespace);
      }
    }
  }

  /** The last item with the key that exists. */
  predicate LastItem(items: seq<KeyedItem>, key: string, i: nat) {
    && i < |items| && items[i].key == key && items[i].serializedItem.Some?
    && forall j :: i < j < |items| && items[j].key == key ==> items[j].serializedItem.None?
  }

  /** The content has the keys of the items that exist, each with the last of its items. */
  lemma {:induction false} ContentSays(items: seq<KeyedItem>, key: string)
    ensures key in Content(items) <==> exists i: nat :: LastItem(items, key, i)
    ensures forall i: nat :: LastItem(items, key, i) ==> Some(Content(items)[key]) == items[i].serializedItem
  {
    if |items| > 0 {
      var n := |items| - 1;
      var init := items[..n];
      ContentSays(init, key);
      if items[n].key == key && items[n].serializedItem.Some? {
        assert LastItem(items, key, n);
        assert forall i: nat :: LastItem(items, key, i) ==> i == n;
      } else {
        forall i: nat ensures LastItem(items, key, i) <==> LastItem(init, key, i) {
          assert forall j :: 0 <= j < n ==> init[j] == items[j];
        }
      }
    }
  }

  /** The value is the hash of exactly the items that exist, and there is none when none exists. */
  ghost predicate HoldsItems(db: Database, key: string, items: seq<KeyedItem>) {
    if forall item <- items :: item.serializedItem.None? then key !in db
    else
      && key in db && db[key].Hash?
      && (forall k :: k in db[key].fields <==> exists i: nat :: LastItem(items, k, i))
      && forall k <- db[key].fields :: forall i: nat :: LastItem(items, k, i) ==> Some(db[key].fields[k]) == items[i].serializedItem
  }

  lemma NoContent(items: seq<KeyedItem>)
    ensures Content(items) == map[] <==> forall item <- items :: item.serializedItem.None?
  {
    if item :| item in items && item.serializedItem.Some? {
      var i :| 0 <= i < |items| && items[i] == item;
      var last := LastOf(items, item.key, i);
      ContentSays(items, item.key);
      assert LastItem(items, item.key, last);
    } else {
      forall key ensures key !in Content(items) { ContentSays(items, key); }
    }
  }

  lemma LastOf(items: seq<KeyedItem>, key: string, i: nat) returns (last: nat)
    requires i < |items| && items[i].key == key && items[i].serializedItem.Some?
    ensures LastItem(items, key, last)
    decreases |items| - i
  {
    if j :| i < j < |items| && items[j].key == key && items[j].serializedItem.Some? {
      last := LastOf(items, key, j);
    } else {
      last := i;
    }
  }

  lemma ContentHolds(db: Database, key: string, items: seq<KeyedItem>)
    requires HoldsAt(db, key, if Content(items) == map[] then None else Some(Hash(Content(items))))
    ensures HoldsItems(db, key, items)
  {
    NoContent(items);
    if Content(items) != map[] {
      forall k ensures k in Content(items) <==> exists i: nat :: LastItem(items, k, i)
        ensures forall i: nat :: LastItem(items, k, i) ==> Some(Content(items)[k]) == items[i].serializedItem {
        ContentSays(items, k);
      }
    }
  }

  /** No later collection has the namespace. */
  predicate LastCollection(allData: seq<Collection>, i: nat) {
    i < |allData| && forall j :: i < j < |allData| ==> allData[j].namespace != allData[i].namespace
  }

  lemma {:induction false} LatestIsLast(allData: seq<Collection>, i: nat)
    requires LastCollection(allData, i)
    ensures Latest(allData, allData[i].namespace) == Some(allData[i])
  {
    var n := |allData| - 1;
    if i < n {
      assert allData[..n][i] == allData[i];
      LatestIsLast(allData[..n], i);
    }
  }

  lemma {:induction false} LatestIsNone(allData: seq<Collection>, namespace: string)
    requires forall c <- allData :: c.namespace != namespace
    ensures Latest(allData, namespace) == None
  {
    if |allData| > 0 { LatestIsNone(allData[..|allData| - 1], namespace); }
  }

  /** What the transaction leaves: at the key of each supplied namespace exactly the items of its
      last collection, the mark of initialization, and at every other key what was there. */
  ghost predicate Initialized(db: Database, after: Database, prefix: string, allData: seq<Collection>) {
    && (forall i: nat :: LastCollection(allData, i) && allData[i].namespace != "$inited" ==>
          HoldsItems(after, prefix + ":" + allData[i].namespace, allData[i].items))
    && HoldsAt(after, prefix + ":" + "$inited", Some(Text("")))
    && (forall key :: key != prefix + ":" + "$inited" && (forall c <- allData :: key != prefix + ":" + c.namespace) ==>
          HoldsAt(after, key, if key in db then Some(db[key]) else None))
  }

  lemma ReplacedIsInitialized(db: Database, before: Database, after: Database, prefix: string, allData: seq<Collection>)
    requires ReplacedBy(db, before, prefix, allData) && after == before[PrefixedKey(prefix, "$inited") := Text("")]
    ensures Initialized(db, after, prefix, allData)
  {
    forall i: nat | LastCollection(allData, i) && allData[i].namespace != "$inited"
      ensures HoldsItems(after, prefix + ":" + allData[i].namespace, allData[i].items) {
      SuppliedNamespace(db, before, after, prefix, allData, i);
    }
    forall key | key != prefix + ":" + "$inited" && (forall c <- allData :: key != prefix + ":" + c.namespace)
      ensures HoldsAt(after, key, if key in db then Some(db[key]) else None) {
      OtherKey(db, before, after, prefix, allData, key);
    }
  }

  lemma SuppliedNamespace(db: Database, before: Database, after: Database, prefix: string, allData: seq<Collection>, i: nat)
    requires ReplacedBy(db, before, prefix, allData) && after == before[PrefixedKey(prefix, "$inited") := Text("")]
    requires LastCollection(allData, i) && allData[i].namespace != "$inited"
    ensures HoldsItems(after, prefix + ":" + allData[i].namespace, allData[i].items)
  {
    var ns := allData[i].namespace;
    LatestIsLast(allData, i);
    assert HoldsAt(before, PrefixedKey(prefix, ns), Replaced(db, prefix, allData, ns));
    if PrefixedKey(prefix, ns) == PrefixedKey(prefix, "$inited") { PrefixInjective(prefix, ns, "$inited"); }
    ContentHolds(after, PrefixedKey(prefix, ns), allData[i].items);
  }

  lemma OtherKey(db: Database, before: Database, after: Database, prefix: string, allData: seq<Collection>, key: string)
    requires ReplacedBy(db, before, prefix, allData) && after == before[PrefixedKey(prefix, "$inited") := Text("")]
    requires key != PrefixedKey(prefix, "$inited") && forall c <- allData :: key != PrefixedKey(prefix, c.namespace)
    ensures HoldsAt(after, key, if key in db then Some(db[key]) else None)
  {
    if ns :| key == PrefixedKey(prefix, ns) {
      LatestIsNone(allData, ns);
      assert HoldsAt(before, PrefixedKey(prefix, ns), Replaced(db, prefix, allData, ns));
    }
  }

  lemma ApplyOne(db: Database, commands: seq<Command>, command: Command)
    ensures ApplyAll(db, commands + [command]) == Apply(ApplyAll(db, commands), command)
  {
    assert (commands + [command])[..|commands|] == commands;
  }

  /** DEL and, when there is content, HMSET: the commands for one collection. */
  lemma ReplaceCommands(db: Database, key: string, fields: map<string, string>)
    ensures Apply(Apply(db, Del(key)), Hmset(key, fields)) == db[key := Hash(fields)]
  {
    assert map[] + fields == fields;
  }

  method ContentOf(items: seq<KeyedItem>) returns (content: map<string, string>)
    ensures content == Content(items)
  {
    content := map[];
    for j := 0 to |items|
      invariant content == Content(items[..j])
    {
      assert items[..j + 1][..j] == items[..j];
      if items[j].serializedItem.Some? {
        content := content[items[j].key := items[j].serializedItem.value];
      }
    }
    assert items[..|items|] == items;
  }

  /** Builds the transaction. Once executed on any database, the supplied namespaces hold
      exactly the items that exist, the rest is untouched, and the `$inited` key is set. */
  method Init(ghost db: Database, prefix: string, allData: seq<Collection>) returns (commands: seq<Command>)
    ensures exists before :: ReplacedBy(db, before, prefix, allData)
                             && ApplyAll(db, commands) == before[PrefixedKey(prefix, "$inited") := Text("")]
    ensures Initialized(db, ApplyAll(db, commands), prefix, allData)
  {
    commands := [];
    assert ReplacedBy(db, db, prefix, []);
    for i := 0 to |allData|
      invariant ReplacedBy(db, ApplyAll(db, commands), prefix, allData[..i])
    {
      commands := Replace(db, prefix, allData, i, commands);
    }
    assert allData[..|allData|] == allData;
    ApplyOne(db, commands, SetText(PrefixedKey(prefix, "$inited"), ""));
    ReplacedIsInitialized(db, ApplyAll(db, commands), ApplyAll(db, commands + [SetText(PrefixedKey(prefix, "$inited"), "")]), prefix, allData);
    commands := commands + [SetText(PrefixedKey(prefix, "$inited"), "")];
  }

  /** The body of the loop over the collections. */
  method Replace(ghost db: Database, prefix: string, allData: seq<Collection>, i: nat, commands0: seq<Command>)
    returns (commands: seq<Command>)
    requires i < |allData| && ReplacedBy(db, ApplyAll(db, commands0), prefix, allData[..i])
    ensures ReplacedBy(db, ApplyAll(db, commands), prefix, allData[..i + 1])
  {
    var namespaceKey := PrefixedKey(prefix, allData[i].namespace);
    ApplyOne(db, commands0, Del(namespaceKey));
    commands := commands0 + [Del(namespaceKey)];
    var content := ContentOf(allData[i].items);
    if content != map[] {
      ApplyOne(db, commands, Hmset(namespaceKey, content));
      ReplaceCommands(ApplyAll(db, commands0), namespaceKey, content);
      commands := commands + [Hmset(namespaceKey, content)];
    }
    ReplaceOne(db, ApplyAll(db, commands0), prefix, allData[..i], allData[i], ApplyAll(db, commands));
    assert allData[..i + 1] == allData[..i] + [allData[i]];
  }
}
