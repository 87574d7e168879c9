/** The DynamoDB feature store: the full replacement of `init`, sent as concurrent batches
    (DynamoDBCore.ts, DynamoDBClientState.ts). */
module DynamoDB {
  import opened Base
  import opened Strings

  /** The primary key of a row. */
  datatype Key = Key(namespace: string, key: string)

  /** The other attributes of a row, where it has them. */
  datatype Item = Item(version: Option<nat>, serialized: Option<string>, deleted: bool)

  type Table = map<Key, Item>

  datatype Request = Put(key: Key, item: Item) | Delete(key: Key)

  datatype Entry = Entry(key: string, version: nat, serialized: Option<string>)

  datatype Collection = Collection(namespace: string, items: seq<Entry>)

  const DYNAMODB_MAX_SIZE := 400000
  const WRITE_BATCH_SIZE := 25

  // ----- Requests -----

  function ByteLength(s: string): nat {
    if |s| == 0 then 0
    else
      var c := s[0] as int;
      (if c < 0x80 then 1 else if c < 0x800 then 2 else if c < 0x1_0000 then 3 else 4) + ByteLength(s[1..])
  }

  function Digits(n: nat): nat {
    if n < 10 then 1 else Digits(n / 10) + 1
  }

  /** One string attribute; an empty one is not counted at all. */
  function AttributeSize(name: nat, value: string): nat {
    if value == "" then 0 else name + ByteLength(value)
  }

  function CalculateSize(key: Key, item: Item): nat {
    100 + AttributeSize(|"namespace"|, key.namespace) + AttributeSize(|"key"|, key.key)
    + (if item.version.Some? then |"version"| + Digits(item.version.value) else 0)
    + (if item.serialized.Some? then AttributeSize(|"item"|, item.serialized.value) else 0)
  }

  predicate CheckSizeLimit(key: Key, item: Item) {
    CalculateSize(key, item) <= DYNAMODB_MAX_SIZE
  }

  /** What the row takes in the table: names and values of all its attributes, a number at one
      byte for every two digits and one more. */
  function StoredSize(key: Key, item: Item): nat {
    |"namespace"| + ByteLength(key.namespace) + |"key"| + ByteLength(key.key)
    + (if item.version.Some? then |"version"| + (Digits(item.version.value) + 1) / 2 + 1 else 0)
    + (if item.serialized.Some? then |"item"| + ByteLength(item.serialized.value) else 0)
  }

  /** The estimate never falls short, empty attributes and short numbers included: what passes
      the limit fits into the 400 kilobytes of the table. */
  lemma AcceptedRowsFit(key: Key, item: Item)
    ensures StoredSize(key, item) <= CalculateSize(key, item)
    ensures CheckSizeLimit(key, item) ==> StoredSize(key, item) <= 400 * 1024
  {
    if item.version.Some? { assert Digits(item.version.value) >= 1; }
    assert |"namespace"| == 9 && |"key"| == 3 && |"version"| == 7 && |"item"| == 4;
  }

  /** Nor does it exceed the stored size by more than a hundred bytes and one for every two digits,
      so every row with that much room is accepted. */
  lemma RoomyRowsAreAccepted(key: Key, item: Item)
    requires key.namespace != "" && key.key != "" && item.serialized != Some("")
    ensures CalculateSize(key, item) <= StoredSize(key, item) + 100 + if item.version.Some? then Digits(item.version.value) / 2 else 0
    ensures StoredSize(key, item) <= 400000 - 100 - (if item.version.Some? then Digits(item.version.value) / 2 else 0) ==>
              CheckSizeLimit(key, item)
  {
  }

  function Power10(n: nat): nat {
    if n == 0 then 1 else 10 * Power10(n - 1)
  }

  lemma {:induction false} DigitsOfPowers(n: nat)
    ensures n < Power10(Digits(n)) && Digits(n) >= 1
    ensures n > 0 ==> Power10(Digits(n) - 1) <= n
  {
    if n >= 10 {
      DigitsOfPowers(n / 10);
      assert Power10(Digits(n)) == 10 * Power10(Digits(n / 10));
      assert Power10(Digits(n) - 1) == 10 * Power10(Digits(n / 10) - 1);
    } else {
      assert Power10(1) == 10 * Power10(0);
    }
  }

  /** How many code points fit into so many octets: by section 3 of RFC 3629 each octet after the
      first carries 6 bits, and the first 7 on its own or 7 less the number of octets. */
  function Capacity(octets: nat): nat
    requires 1 <= octets <= 4
  {
    if octets == 1 then 128 else if octets == 2 then 32 * 64 else if octets == 3 then 16 * 64 * 64 else 8 * 64 * 64 * 64
  }

  /** `Buffer.byteLength` counts each character with the fewest octets that hold it. */
  lemma {:induction false} ByteLengthIsUtf8(before: string, c: char, after: string) returns (octets: nat)
    ensures ByteLength(before + [c] + after) == ByteLength(before) + octets + ByteLength(after)
    ensures 1 <= octets <= 4 && c as int < Capacity(octets) && (octets > 1 ==> Capacity(octets - 1) <= c as int)
  {
    if before == "" {
      assert ("" + [c] + after)[1..] == after;
      octets := ByteLength([c]);
      assert [c][1..] == "";
    } else {
      octets := ByteLengthIsUtf8(before[1..], c, after);
      assert (before + [c] + after)[1..] == before[1..] + [c] + after;
    }
  }

  function RowKey(prefix: string, namespace: string, key: string): Key {
    Key(prefix + namespace, key)
  }

  /** `_marshalItem`: an empty serialized item is left out. */
  function MarshalItem(entry: Entry): Item {
    Item(Some(entry.version), if entry.serialized == Some("") then None else entry.serialized, false)
  }

  function InitializedToken(prefix: string): Key {
    Key(prefix + "$inited", prefix + "$inited")
  }

  const TOKEN_ITEM := Item(None, None, false)

  predicate Accepted(prefix: string, namespace: string, entry: Entry) {
    CheckSizeLimit(RowKey(prefix, namespace, entry.key), MarshalItem(entry))
  }

  function Apply(table: Table, request: Request): Table {
    match request
    case Put(key, item) => table[key := item]
    case Delete(key) => table - {key}
  }

  function ApplyAll(table: Table, requests: seq<Request>): Table {
    if |requests| == 0 then table
    else Apply(ApplyAll(table, requests[..|requests| - 1]), requests[|requests| - 1])
  }

  // ----- Distinct rows commute -----

  predicate DistinctRows(requests: seq<Request>) {
    forall i, j :: 0 <= i < j < |requests| ==> requests[i].key != requests[j].key
  }

  /** What a request leaves in its row. */
  function Left(request: Request): Option<Item> {
    match request
    case Put(_, item) => Some(item)
    case Delete(_) => None
  }

  function Row(table: Table, key: Key): Option<Item> {
    if key in table then Some(table[key]) else None
  }

  lemma {:induction false} RowAfter(table: Table, requests: seq<Request>, key: Key)
    requires DistinctRows(requests)
    ensures forall i :: 0 <= i < |requests| && requests[i].key == key ==> Row(ApplyAll(table, requests), key) == Left(requests[i])
    ensures (forall i :: 0 <= i < |requests| ==> requests[i].key != key) ==> Row(ApplyAll(table, requests), key) == Row(table, key)
  {
    if |requests| > 0 {
      RowAfter(table, requests[..|requests| - 1], key);
    }
  }

  lemma TablesEqual(a: Table, b: Table)
    requires forall key :: Row(a, key) == Row(b, key)
    ensures a == b
  {
    forall key ensures key in a <==> key in b { assert Row(a, key) == Row(b, key); }
    forall key | key in a ensures a[key] == b[key] { assert Row(a, key) == Row(b, key); }
  }

  /** Requests for distinct rows leave the same table in whatever order they arrive, so it does
      not matter how concurrent batches interleave. */
  lemma AnyOrder(table: Table, requests: seq<Request>, order: seq<Request>)
    requires DistinctRows(requests) && multiset(order) == multiset(requests)
    ensures DistinctRows(order) && ApplyAll(table, order) == ApplyAll(table, requests)
  {
    PermutedRows(requests, order);
    forall key ensures Row(ApplyAll(table, order), key) == Row(ApplyAll(table, requests), key) {
      RowAfter(table, requests, key);
      RowAfter(table, order, key);
      if i :| 0 <= i < |requests| && requests[i].key == key {
        assert requests[i] in multiset(order);
        var j :| 0 <= j < |order| && order[j] == requests[i];
      } else {
        forall j | 0 <= j < |order| ensures order[j].key != key {
          assert order[j] in multiset(requests);
        }
      }
    }
    TablesEqual(ApplyAll(table, order), ApplyAll(table, requests));
  }

  /** If only some of the batches arrive, each row is as before or as after. */
  lemma SomeArrive(table: Table, requests: seq<Request>, order: seq<Request>, key: Key)
    requires DistinctRows(requests) && multiset(order) <= multiset(requests)
    ensures Row(ApplyAll(table, order), key) in {Row(table, key), Row(ApplyAll(table, requests), key)}
  {
    PermutedRows(requests, order);
    RowAfter(table, requests, key);
    RowAfter(table, order, key);
    if j :| 0 <= j < |order| && order[j].key == key {
      assert order[j] in multiset(requests);
      var i :| 0 <= i < |requests| && requests[i] == order[j];
    }
  }

  lemma {:induction false} CountsAtMostOne(requests: seq<Request>, request: Request)
    requires DistinctRows(requests)
    ensures multiset(requests)[request] <= 1
  {
    if |requests| > 0 {
      var n := |requests| - 1;
      CountsAtMostOne(requests[..n], request);
      assert requests == requests[..n] + [requests[n]];
      if requests[n] == request {
        assert request !in requests[..n];
        assert request !in multiset(requests[..n]);
      }
    }
  }

  lemma PermutedRows(requests: seq<Request>, order: seq<Request>)
    requires DistinctRows(requests) && multiset(order) <= multiset(requests)
    ensures DistinctRows(order)
  {
    forall i, j | 0 <= i < j < |order| ensures order[i].key != order[j].key {
      assert order[i] in multiset(order) && order[j] in multiset(order);
      assert order[i] in requests && order[j] in requests;
      if order[i] == order[j] {
        CountsAtMostOne(requests, order[i]);
        Twice(order, i, j);
      } else {
        var k :| 0 <= k < |requests| && requests[k] == order[i];
        var l :| 0 <= l < |requests| && requests[l] == order[j];
      }
    }
  }

  lemma Twice(order: seq<Request>, i: nat, j: nat)
    requires i < j < |order| && order[i] == order[j]
    ensures multiset(order)[order[i]] >= 2
  {
    assert order == order[..j] + order[j..];
    assert order[i] in order[..j] && order[j] in order[j..];
    assert multiset(order) == multiset(order[..j]) + multiset(order[j..]);
  }

  // ----- Splitting into batches -----

  function Flatten(batches: seq<seq<Request>>): seq<Request> {
    if |batches| == 0 then [] else Flatten(batches[..|batches| - 1]) + batches[|batches| - 1]
  }

  /** `batchWrite`: in order, none empty, none too large, and no more of them than needed. */
  method SplitIntoBatches(requests: seq<Request>) returns (batches: seq<seq<Request>>)
    ensures Flatten(batches) == requests
    ensures forall batch <- batches :: 0 < |batch| <= 25
    ensures |batches| == (|requests| + 24) / 25
  {
    batches := [];
    var i := 0;
    while i < |requests|
      invariant 0 <= i
      invariant i % WRITE_BATCH_SIZE == 0 && |batches| == i / WRITE_BATCH_SIZE
      invariant i - WRITE_BATCH_SIZE < |requests|
      invariant Flatten(batches) == requests[..if i < |requests| then i else |requests|]
      invariant forall batch <- batches :: 0 < |batch| <= WRITE_BATCH_SIZE
    {
      var end := if i + WRITE_BATCH_SIZE < |requests| then i + WRITE_BATCH_SIZE else |requests|;
      assert requests[..end] == requests[..i] + requests[i..end];
      ghost var before := batches;
      batches := batches + [requests[i..end]];
      assert batches[..|batches| - 1] == before;
      i := i + WRITE_BATCH_SIZE;
    }
    assert requests[..|requests|] == requests;
  }

  // ----- Rows as names -----

  /** `makeNamespaceKey` */
  function NameOf(key: Key): string {
    key.namespace + "$" + key.key
  }

  /** The row a delete request is built for: the first two pieces between the '$'. */
  function Unname(name: string): Key {
    var pieces := Split(name, '$');
    if |pieces| > 1 then Key(pieces[0], pieces[1]) else Key(pieces[0], "")
  }

  predicate Plain(s: string) {
    '$' !in s
  }

  /** A name leads back to its row exactly when the row's attributes have no '$'. */
  lemma NameRoundTrip(key: Key)
    ensures Unname(NameOf(key)) == key <==> Plain(key.namespace) && Plain(key.key)
  {
    PiecesLackSeparator(NameOf(key), '$');
    var pieces := Split(NameOf(key), '$');
    if Plain(key.namespace) && Plain(key.key) {
      assert NameOf(key) == key.namespace + ['$'] + key.key;
      SplitPiece(key.namespace, key.key, '$');
      SplitWhole(key.key, '$');
    }
    assert NameOf(key)[|key.namespace|] == '$';
    SplitOne(NameOf(key), '$');
    assert pieces[0] in pieces && pieces[1] in pieces;
  }

  lemma {:induction false} SplitOne(s: string, c: char)
    requires c in s
    ensures |Split(s, c)| > 1
  {
    if s[0] != c { SplitOne(s[1..], c); }
  }

  // ----- The requests of init -----

  function PutsOf(prefix: string, namespace: string, entries: seq<Entry>): seq<Request> {
    if |entries| == 0 then []
    else
      var entry := entries[|entries| - 1];
      PutsOf(prefix, namespace, entries[..|entries| - 1]) +
      if Accepted(prefix, namespace, entry) then [Put(RowKey(prefix, namespace, entry.key), MarshalItem(entry))] else []
  }

  /** The items small enough, in order. */
  function Puts(prefix: string, allData: seq<Collection>): seq<Request> {
    if |allData| == 0 then []
    else
      var collection := allData[|allData| - 1];
      Puts(prefix, allData[..|allData| - 1]) + PutsOf(prefix, collection.namespace, collection.items)
  }

  function Deletes(names: seq<string>): (r: seq<Request>)
    ensures |r| == |names|
  {
    seq(|names|, i requires 0 <= i < |names| => Delete(Unname(names[i])))
  }

  function InitRequests(prefix: string, allData: seq<Collection>, names: seq<string>): seq<Request> {
    Puts(prefix, allData) + Deletes(names) + [Put(InitializedToken(prefix), TOKEN_ITEM)]
  }

  predicate NamesPut(requests: seq<Request>, name: string) {
    exists i :: 0 <= i < |requests| && NameOf(requests[i].key) == name
  }

  predicate NamesListed(listed: seq<Key>, name: string) {
    exists i :: 0 <= i < |listed| && NameOf(listed[i]) == name
  }

  /** The names whose rows are to be deleted once `puts` are written: those the queries listed,
      without the token and the rows put. */
  ghost predicate Remaining(prefix: string, puts: seq<Request>, listed: seq<Key>, names: seq<string>) {
    && Distinct(names)
    && forall name :: name in names <==>
         NamesListed(listed, name) && name != NameOf(InitializedToken(prefix)) && !NamesPut(puts, name)
  }

  method Without(names: seq<string>, name: string) returns (r: seq<string>)
    requires Distinct(names)
    ensures Distinct(r) && forall n :: n in r <==> n in names && n != name
  {
    r := [];
    for i := 0 to |names|
      invariant Distinct(r) && forall n :: n in r <==> n in names[..i] && n != name
    {
      assert names[..i + 1] == names[..i] + [names[i]];
      if names[i] != name {
        assert names[i] !in names[..i];
        r := r + [names[i]];
      }
    }
    assert names[..|names|] == names;
  }

  method CollectNames(listed: seq<Key>) returns (names: seq<string>)
    ensures Distinct(names) && forall name :: name in names <==> NamesListed(listed, name)
  {
    names := [];
    for i := 0 to |listed|
      invariant Distinct(names) && forall name :: name in names <==> NamesListed(listed[..i], name)
    {
      var name := NameOf(listed[i]);
      ghost var before := names;
      assert listed[..i + 1] == listed[..i] + [listed[i]];
      if name !in names { names := names + [name]; }
      forall n ensures n in names <==> NamesListed(listed[..i + 1], n) {
        ListedSnoc(listed[..i], listed[i], n);
        assert n in names <==> n in before || n == name;
      }
    }
    assert listed[..|listed|] == listed;
  }

  lemma ListedSnoc(listed: seq<Key>, key: Key, name: string)
    ensures NamesListed(listed + [key], name) <==> NamesListed(listed, name) || NameOf(key) == name
  {
    var all := listed + [key];
    if j :| 0 <= j < |listed| && NameOf(listed[j]) == name { assert all[j] == listed[j]; }
    assert all[|listed|] == key;
  }

  lemma PutSnoc(requests: seq<Request>, request: Request, name: string)
    ensures NamesPut(requests + [request], name) <==> NamesPut(requests, name) || NameOf(request.key) == name
  {
    var all := requests + [request];
    if j :| 0 <= j < |requests| && NameOf(requests[j].key) == name { assert all[j] == requests[j]; }
    assert all[|requests|] == request;
  }

  method PutCollection(prefix: string, collection: Collection, listed: seq<Key>, puts: seq<Request>, names: seq<string>)
    returns (puts': seq<Request>, names': seq<string>)
    requires Remaining(prefix, puts, listed, names)
    ensures puts' == puts + PutsOf(prefix, collection.namespace, collection.items)
    ensures Remaining(prefix, puts', listed, names')
  {
    puts', names' := puts, names;
    var items := collection.items;
    for i := 0 to |items|
      invariant puts' == puts + PutsOf(prefix, collection.namespace, items[..i])
      invariant Remaining(prefix, puts', listed, names')
    {
      assert items[..i + 1][..i] == items[..i];
      var key, item := RowKey(prefix, collection.namespace, items[i].key), MarshalItem(items[i]);
      if CheckSizeLimit(key, item) {
        names' := Without(names', NameOf(key));
        forall name ensures NamesPut(puts' + [Put(key, item)], name) <==> NamesPut(puts', name) || NameOf(key) == name {
          PutSnoc(puts', Put(key, item), name);
        }
        puts' := puts' + [Put(key, item)];
      }
    }
    assert items[..|items|] == items;
  }

  /** `init` up to its batch write; `listed` is what the queries found. */
  method BuildRequests(prefix: string, allData: seq<Collection>, listed: seq<Key>) returns (requests: seq<Request>, names: seq<string>)
    ensures Remaining(prefix, Puts(prefix, allData), listed, names)
    ensures requests == InitRequests(prefix, allData, names)
  {
    names := CollectNames(listed);
    names := Without(names, NameOf(InitializedToken(prefix)));
    requests := [];
    for i := 0 to |allData|
      invariant requests == Puts(prefix, allData[..i])
      invariant Remaining(prefix, requests, listed, names)
    {
      assert allData[..i + 1][..i] == allData[..i];
      requests, names := PutCollection(prefix, allData[i], listed, requests, names);
    }
    assert allData[..|allData|] == allData;
    ghost var puts := requests;
    for i := 0 to |names|
      invariant requests == puts + Deletes(names[..i])
    {
      assert Deletes(names[..i + 1]) == Deletes(names[..i]) + [Delete(Unname(names[i]))];
      requests := requests + [Delete(Unname(names[i]))];
    }
    assert names[..|names|] == names;
    requests := requests + [Put(InitializedToken(prefix), TOKEN_ITEM)];
  }

  // ----- What init leaves in the table -----

  /** What the queries of `init` find: the rows of the supplied namespaces that are not marked
      deleted. */
  ghost predicate Listing(prefix: string, table: Table, allData: seq<Collection>, listed: seq<Key>) {
    forall key :: key in listed <==> key in table && !table[key].deleted && Supplied(prefix, allData, key.namespace)
  }

  predicate Supplied(prefix: string, allData: seq<Collection>, namespace: string) {
    exists i :: 0 <= i < |allData| && prefix + allData[i].namespace == namespace
  }

  /** No item occurs twice. */
  predicate DistinctData(allData: seq<Collection>) {
    && (forall i, j :: 0 <= i < j < |allData| ==> allData[i].namespace != allData[j].namespace)
    && forall c <- allData :: DistinctKeys(c.items)
  }

  predicate DistinctKeys(entries: seq<Entry>) {
    forall i, j :: 0 <= i < j < |entries| ==> entries[i].key != entries[j].key
  }

  /** The request is the put of an accepted item of the collection. */
  predicate PutFrom(prefix: string, c: Collection, request: Request) {
    exists i :: 0 <= i < |c.items| && Accepted(prefix, c.namespace, c.items[i])
                && request == Put(RowKey(prefix, c.namespace, c.items[i].key), MarshalItem(c.items[i]))
  }

  lemma {:induction false} PutsOfExactly(prefix: string, namespace: string, entries: seq<Entry>, request: Request)
    ensures request in PutsOf(prefix, namespace, entries) <==> PutFrom(prefix, Collection(namespace, entries), request)
  {
    if |entries| > 0 {
      var n := |entries| - 1;
      PutsOfExactly(prefix, namespace, entries[..n], request);
      var c, c' := Collection(namespace, entries), Collection(namespace, entries[..n]);
      if PutFrom(prefix, c', request) {
        var i :| 0 <= i < n && Accepted(prefix, namespace, c'.items[i])
                 && request == Put(RowKey(prefix, namespace, c'.items[i].key), MarshalItem(c'.items[i]));
        assert c.items[i] == c'.items[i];
      }
      if PutFrom(prefix, c, request) {
        var i :| 0 <= i <= n && Accepted(prefix, namespace, c.items[i])
                 && request == Put(RowKey(prefix, namespace, c.items[i].key), MarshalItem(c.items[i]));
        if i < n { assert c.items[i] == c'.items[i]; }
      }
    }
  }

  lemma {:induction false} PutsExactly(prefix: string, allData: seq<Collection>, request: Request)
    ensures request in Puts(prefix, allData) <==> exists i :: 0 <= i < |allData| && PutFrom(prefix, allData[i], request)
  {
    if |allData| > 0 {
      var n := |allData| - 1;
      PutsExactly(prefix, allData[..n], request);
      PutsOfExactly(prefix, allData[n].namespace, allData[n].items, request);
      if i :| 0 <= i < n && PutFrom(prefix, allData[..n][i], request) { assert PutFrom(prefix, allData[i], request); }
      if i :| 0 <= i <= n && PutFrom(prefix, allData[i], request) {
        if i < n { assert PutFrom(prefix, allData[..n][i], request); }
      }
    }
  }

  lemma {:induction false} PutsOfDistinct(prefix: string, namespace: string, entries: seq<Entry>)
    requires DistinctKeys(entries)
    ensures DistinctRows(PutsOf(prefix, namespace, entries))
  {
    if |entries| > 0 {
      var n := |entries| - 1;
      PutsOfDistinct(prefix, namespace, entries[..n]);
      forall request <- PutsOf(prefix, namespace, entries[..n]) ensures request.key != RowKey(prefix, namespace, entries[n].key) {
        PutsOfExactly(prefix, namespace, entries[..n], request);
      }
    }
  }

  lemma {:induction false} PutsDistinct(prefix: string, allData: seq<Collection>)
    requires DistinctData(allData)
    ensures DistinctRows(Puts(prefix, allData))
  {
    if |allData| > 0 {
      var n := |allData| - 1;
      PutsDistinct(prefix, allData[..n]);
      PutsOfDistinct(prefix, allData[n].namespace, allData[n].items);
      var a, b := Puts(prefix, allData[..n]), PutsOf(prefix, allData[n].namespace, allData[n].items);
      forall x <- a, y <- b ensures x.key != y.key {
        PutsExactly(prefix, allData[..n], x);
        PutsOfExactly(prefix, allData[n].namespace, allData[n].items, y);
        var i :| 0 <= i < n && PutFrom(prefix, allData[..n][i], x);
        PrefixCancels(prefix, allData[i].namespace, allData[n].namespace);
      }
      ConcatDistinct(a, b);
    }
  }

  lemma PrefixCancels(prefix: string, a: string, b: string)
    requires a != b
    ensures prefix + a != prefix + b
  {
    assert (prefix + a)[|prefix|..] == a && (prefix + b)[|prefix|..] == b;
  }

  lemma ConcatDistinct(a: seq<Request>, b: seq<Request>)
    requires DistinctRows(a) && DistinctRows(b)
    requires forall x <- a, y <- b :: x.key != y.key
    ensures DistinctRows(a + b)
  {
    var c := a + b;
    forall i, j | 0 <= i < j < |c| ensures c[i].key != c[j].key {
      if i < |a| <= j { assert a[i] in a && b[j - |a|] in b; }
    }
  }

  /** The row of an accepted item. */
  predicate Supplies(prefix: string, allData: seq<Collection>, key: Key) {
    exists put <- Puts(prefix, allData) :: put.key == key
  }

  /** The stale rows: those listed that are neither the token nor supplied again. */
  predicate Stale(prefix: string, allData: seq<Collection>, listed: seq<Key>, key: Key) {
    key in listed && key != InitializedToken(prefix) && !Supplies(prefix, allData, key)
  }

  /** What `init` asks of its input: no stale row has the separator in its namespace, prefix
      included, or in its key, and no item is supplied in the row of the token. */
  predicate InitWorks(prefix: string, allData: seq<Collection>, listed: seq<Key>) {
    && !Supplies(prefix, allData, InitializedToken(prefix))
    && forall key <- listed :: Stale(prefix, allData, listed, key) ==> Plain(key.namespace) && Plain(key.key)
  }

  function Dollars(s: string): nat {
    multiset(s)['$']
  }

  lemma DollarsOfName(key: Key)
    ensures Dollars(NameOf(key)) == Dollars(key.namespace) + 1 + Dollars(key.key)
    ensures Dollars(NameOf(key)) == 1 <==> Plain(key.namespace) && Plain(key.key)
  {
    assert multiset(NameOf(key)) == multiset(key.namespace) + multiset{'$'} + multiset(key.key);
    assert '$' in key.namespace <==> '$' in multiset(key.namespace);
    assert '$' in key.key <==> '$' in multiset(key.key);
  }

  /** A row without '$' shares its name with no other row. */
  lemma PlainNameIsUnique(key: Key, other: Key)
    requires Plain(key.namespace) && Plain(key.key) && NameOf(key) == NameOf(other)
    ensures key == other
  {
    DollarsOfName(key);
    DollarsOfName(other);
    NameRoundTrip(key);
    NameRoundTrip(other);
  }

  /** When `init` works, a remaining name stands for a stale row, */
  lemma RemainingIsStale(prefix: string, allData: seq<Collection>, listed: seq<Key>, names: seq<string>, name: string)
    requires Remaining(prefix, Puts(prefix, allData), listed, names) && name in names && InitWorks(prefix, allData, listed)
    ensures Stale(prefix, allData, listed, Unname(name)) && NameOf(Unname(name)) == name
    ensures Plain(Unname(name).namespace)
  {
    var puts := Puts(prefix, allData);
    assert NamesListed(listed, name);
    var i :| 0 <= i < |listed| && NameOf(listed[i]) == name;
    assert listed[i] in listed;
    forall put <- puts ensures put.key != listed[i] {
      var j :| 0 <= j < |puts| && puts[j] == put;
      assert NameOf(puts[j].key) == name ==> NamesPut(puts, name);
    }
    NameRoundTrip(listed[i]);
  }

  /** and every stale row is among them. */
  lemma StaleRemains(prefix: string, allData: seq<Collection>, listed: seq<Key>, names: seq<string>, key: Key)
    requires Remaining(prefix, Puts(prefix, allData), listed, names)
    requires Stale(prefix, allData, listed, key) && Plain(key.namespace) && Plain(key.key)
    ensures NameOf(key) in names && Unname(NameOf(key)) == key
  {
    var puts := Puts(prefix, allData);
    var i :| 0 <= i < |listed| && listed[i] == key;
    assert NamesListed(listed, NameOf(key));
    NameRoundTrip(key);
    if NameOf(InitializedToken(prefix)) == NameOf(key) { PlainNameIsUnique(key, InitializedToken(prefix)); }
    if j :| 0 <= j < |puts| && NameOf(puts[j].key) == NameOf(key) {
      PlainNameIsUnique(key, puts[j].key);
    }
  }

  /** Then no row is written twice. */
  lemma InitWritesDistinctRows(prefix: string, allData: seq<Collection>, listed: seq<Key>, names: seq<string>)
    requires DistinctData(allData) && InitWorks(prefix, allData, listed)
    requires Remaining(prefix, Puts(prefix, allData), listed, names)
    ensures DistinctRows(InitRequests(prefix, allData, names))
  {
    var puts, deletes, token := Puts(prefix, allData), Deletes(names), [Put(InitializedToken(prefix), TOKEN_ITEM)];
    PutsDistinct(prefix, allData);
    forall i, j | 0 <= i < j < |deletes| ensures deletes[i].key != deletes[j].key {
      RemainingIsStale(prefix, allData, listed, names, names[i]);
      RemainingIsStale(prefix, allData, listed, names, names[j]);
    }
    forall y <- deletes ensures y.key != InitializedToken(prefix) && forall x <- puts :: x.key != y.key {
      var j :| 0 <= j < |deletes| && deletes[j] == y;
      RemainingIsStale(prefix, allData, listed, names, names[j]);
    }
    ConcatDistinct(puts, deletes);
    forall z <- puts + deletes ensures z.key != InitializedToken(prefix) {
      assert z in puts || z in deletes;
    }
    ConcatDistinct(puts + deletes, token);
  }

  /** The token is there, each supplied item small enough is there, the stale rows are gone, and
      every other row is as it was. */
  ghost predicate InitLeaves(prefix: string, before: Table, after: Table, allData: seq<Collection>, listed: seq<Key>) {
    && Row(after, InitializedToken(prefix)) == Some(TOKEN_ITEM)
    && (forall put <- Puts(prefix, allData) :: Row(after, put.key) == Left(put))
    && (forall key :: key != InitializedToken(prefix) && !Supplies(prefix, allData, key) ==>
          Row(after, key) == if key in listed then None else Row(before, key))
  }

  lemma InitSuffices(prefix: string, table: Table, allData: seq<Collection>, listed: seq<Key>, names: seq<string>, order: seq<Request>)
    requires DistinctData(allData) && InitWorks(prefix, allData, listed)
    requires Remaining(prefix, Puts(prefix, allData), listed, names)
    requires multiset(order) == multiset(InitRequests(prefix, allData, names))
    ensures InitLeaves(prefix, table, ApplyAll(table, order), allData, listed)
  {
    var requests := InitRequests(prefix, allData, names);
    var puts := Puts(prefix, allData);
    InitWritesDistinctRows(prefix, allData, listed, names);
    AnyOrder(table, requests, order);
    RowAfter(table, requests, InitializedToken(prefix));
    assert requests[|requests| - 1].key == InitializedToken(prefix);
    forall put <- puts ensures Row(ApplyAll(table, order), put.key) == Left(put) {
      var i :| 0 <= i < |puts| && puts[i] == put;
      assert requests[i] == put;
      RowAfter(table, requests, put.key);
    }
    forall key | key != InitializedToken(prefix) && !Supplies(prefix, allData, key)
      ensures Row(ApplyAll(table, order), key) == if key in listed then None else Row(table, key) {
      OtherRows(prefix, table, allData, listed, names, key);
    }
  }

  lemma OtherRows(prefix: string, table: Table, allData: seq<Collection>, listed: seq<Key>, names: seq<string>, key: Key)
    requires DistinctData(allData) && InitWorks(prefix, allData, listed)
    requires Remaining(prefix, Puts(prefix, allData), listed, names)
    requires key != InitializedToken(prefix) && !Supplies(prefix, allData, key)
    ensures Row(ApplyAll(table, InitRequests(prefix, allData, names)), key) == if key in listed then None else Row(table, key)
  {
    var requests, puts := InitRequests(prefix, allData, names), Puts(prefix, allData);
    InitWritesDistinctRows(prefix, allData, listed, names);
    RowAfter(table, requests, key);
    if key in listed {
      StaleRemains(prefix, allData, listed, names, key);
      var j :| 0 <= j < |names| && names[j] == NameOf(key);
      assert requests[|puts| + j] == Delete(key);
    } else {
      forall i | 0 <= i < |requests| ensures requests[i].key != key {
        if i < |puts| {
          assert puts[i] in puts;
        } else if i < |puts| + |names| {
          assert requests[i] == Delete(Unname(names[i - |puts|]));
          RemainingIsStale(prefix, allData, listed, names, names[i - |puts|]);
        }
      }
    }
  }

  lemma {:induction false} UntouchedRow(table: Table, requests: seq<Request>, key: Key)
    requires forall request <- requests :: request.key != key
    ensures Row(ApplyAll(table, requests), key) == Row(table, key)
  {
    if |requests| > 0 {
      UntouchedRow(table, requests[..|requests| - 1], key);
    }
  }

  /** Deletes only ever name rows without '$', so any other stale row survives every order of
      arrival. */
  lemma DollarRowSurvives(prefix: string, table: Table, allData: seq<Collection>, listed: seq<Key>, names: seq<string>,
                          order: seq<Request>, key: Key)
    requires Stale(prefix, allData, listed, key) && !(Plain(key.namespace) && Plain(key.key))
    requires multiset(order) == multiset(InitRequests(prefix, allData, names))
    ensures Row(ApplyAll(table, order), key) == Row(table, key)
  {
    var requests, puts := InitRequests(prefix, allData, names), Puts(prefix, allData);
    forall request <- order ensures request.key != key {
      assert request in multiset(requests);
      var i :| 0 <= i < |requests| && requests[i] == request;
      if i < |puts| {
        assert puts[i] in puts;
      } else if i < |puts| + |names| {
        assert request == Delete(Unname(names[i - |puts|]));
        PiecesLackSeparator(names[i - |puts|], '$');
      }
    }
    UntouchedRow(table, order, key);
  }

  /** `init` replaces the supplied namespaces, whatever the order in which the requests of its
      batches arrive, exactly when its input is as it asks; otherwise it fails in every order. */
  lemma InitReplaces(prefix: string, table: Table, allData: seq<Collection>, listed: seq<Key>, names: seq<string>, order: seq<Request>)
    requires DistinctData(allData)
    requires Listing(prefix, table, allData, listed) && Remaining(prefix, Puts(prefix, allData), listed, names)
    requires multiset(order) == multiset(InitRequests(prefix, allData, names))
    ensures InitLeaves(prefix, table, ApplyAll(table, order), allData, listed) <==> InitWorks(prefix, allData, listed)
  {
    var after := ApplyAll(table, order);
    if InitWorks(prefix, allData, listed) {
      InitSuffices(prefix, table, allData, listed, names, order);
    } else if put :| put in Puts(prefix, allData) && put.key == InitializedToken(prefix) {
      PutsExactly(prefix, allData, put);
      assert Left(put) != Some(TOKEN_ITEM);
    } else {
      var key :| Stale(prefix, allData, listed, key) && !(Plain(key.namespace) && Plain(key.key));
      DollarRowSurvives(prefix, table, allData, listed, names, order, key);
    }
  }

  /** So when `init` works, each supplied namespace holds exactly the accepted items and the rows
      that were marked deleted, and no other namespace has changed but for the token. */
  lemma NamespacesAfterInit(prefix: string, table: Table, allData: seq<Collection>, listed: seq<Key>, names: seq<string>,
                            order: seq<Request>, key: Key)
    requires DistinctData(allData) && InitWorks(prefix, allData, listed)
    requires Listing(prefix, table, allData, listed) && Remaining(prefix, Puts(prefix, allData), listed, names)
    requires multiset(order) == multiset(InitRequests(prefix, allData, names))
    requires key != InitializedToken(prefix)
    ensures var after := ApplyAll(table, order);
      if Supplied(prefix, allData, key.namespace) then
        key in after <==> Supplies(prefix, allData, key) || (key in table && table[key].deleted)
      else Row(after, key) == Row(table, key)
  {
    InitReplaces(prefix, table, allData, listed, names, order);
    if Supplies(prefix, allData, key) {
      var put :| put in Puts(prefix, allData) && put.key == key;
      PutsExactly(prefix, allData, put);
    }
  }

  /** The row holds what the entry carries. */
  predicate Holds(row: Option<Item>, entry: Entry) {
    && row.Some? && row.value.version == Some(entry.version) && !row.value.deleted
    && row.value.serialized == if entry.serialized == Some("") then None else entry.serialized
  }

  /** Then every supplied item that is not too large is in its row with its version and data, the
      row of one that is keeps nothing that the queries found, and the token is set. */
  lemma ItemsAfterInit(prefix: string, table: Table, allData: seq<Collection>, listed: seq<Key>, names: seq<string>,
                       order: seq<Request>, c: Collection, entry: Entry)
    requires DistinctData(allData) && InitWorks(prefix, allData, listed)
    requires Listing(prefix, table, allData, listed) && Remaining(prefix, Puts(prefix, allData), listed, names)
    requires multiset(order) == multiset(InitRequests(prefix, allData, names))
    requires c in allData && entry in c.items
    ensures var after, key := ApplyAll(table, order), Key(prefix + c.namespace, entry.key);
      && (Accepted(prefix, c.namespace, entry) ==> Holds(Row(after, key), entry))
      && (!Accepted(prefix, c.namespace, entry) && key != Key(prefix + "$inited", prefix + "$inited") ==>
            Row(after, key) == if key in table && table[key].deleted then Row(table, key) else None)
      && Row(after, Key(prefix + "$inited", prefix + "$inited")) == Some(Item(None, None, false))
  {
    InitReplaces(prefix, table, allData, listed, names, order);
    var key := Key(prefix + c.namespace, entry.key);
    var i :| 0 <= i < |allData| && allData[i] == c;
    var j :| 0 <= j < |c.items| && c.items[j] == entry;
    assert key == RowKey(prefix, c.namespace, entry.key) && Supplied(prefix, allData, key.namespace);
    if Accepted(prefix, c.namespace, entry) {
      var put := Put(key, MarshalItem(entry));
      assert PutFrom(prefix, allData[i], put);
      PutsExactly(prefix, allData, put);
    } else {
      forall put <- Puts(prefix, allData) ensures put.key != key {
        PutsExactly(prefix, allData, put);
        var k :| 0 <= k < |allData| && PutFrom(prefix, allData[k], put);
        if k != i { PrefixCancels(prefix, allData[k].namespace, c.namespace); }
      }
    }
  }

  /** A '$' in the configured prefix is enough: then no stale row is ever deleted. */
  lemma DollarPrefixDeletesNothing(prefix: string, table: Table, allData: seq<Collection>, listed: seq<Key>, names: seq<string>,
                                   order: seq<Request>, key: Key)
    requires !Plain(prefix) && Stale(prefix, allData, listed, key)
    requires Listing(prefix, table, allData, listed)
    requires multiset(order) == multiset(InitRequests(prefix, allData, names))
    ensures Row(ApplyAll(table, order), key) == Row(table, key) != None
  {
    var i :| 0 <= i < |prefix| && prefix[i] == '$';
    assert Supplied(prefix, allData, key.namespace);
    assert key.namespace[i] == '$';
    DollarRowSurvives(prefix, table, allData, listed, names, order, key);
  }

  /** An application that configures the prefix "a$" and replaces its only flag by nothing finds
      the flag still there. */
  lemma DollarPrefixKeepsFlag(order: seq<Request>)
    requires multiset(order) == multiset(InitRequests("a$:", [Collection("features", [])], ["a$:features$x"]))
    ensures var flag, allData := Key("a$:features", "x"), [Collection("features", [])];
      var table := map[flag := Item(Some(1), None, false)];
      && Listing("a$:", table, allData, [flag]) && Remaining("a$:", Puts("a$:", allData), [flag], ["a$:features$x"])
      && flag in ApplyAll(table, order)
  {
    var prefix, flag, c := "a$:", Key("a$:features", "x"), Collection("features", []);
    var allData := [c];
    var table := map[flag := Item(Some(1), None, false)];
    assert prefix + allData[0].namespace == flag.namespace;
    assert allData[..0] == [] && Puts(prefix, allData) == [];
    assert NameOf(flag) == "a$:features$x";
    assert NameOf(InitializedToken(prefix))[3] == '$' && NameOf(flag)[3] == 'f';
    OneListed(flag, [], NameOf(flag), prefix);
    assert prefix[1] == '$';
    DollarPrefixDeletesNothing(prefix, table, allData, [flag], [NameOf(flag)], order, flag);
  }

  lemma OneListed(key: Key, puts: seq<Request>, name: string, prefix: string)
    requires NameOf(key) == name != NameOf(InitializedToken(prefix)) && !NamesPut(puts, name)
    ensures Remaining(prefix, puts, [key], [name])
  {
    forall n ensures n in [name] <==> NamesListed([key], n) && n != NameOf(InitializedToken(prefix)) && !NamesPut(puts, n) {
      assert NameOf([key][0]) == name;
    }
  }

  /** A key with a '$' is taken apart too early: the delete meant for its row goes to another. */
  lemma DollarNamesAnotherRow(namespace: string, a: string, b: string)
    requires Plain(namespace) && Plain(a)
    ensures Unname(NameOf(Key(namespace, a + "$" + b))) == Key(namespace, a)
  {
    assert NameOf(Key(namespace, a + "$" + b)) == namespace + ['$'] + (a + ['$'] + b);
    SplitPiece(namespace, a + ['$'] + b, '$');
    SplitPiece(a, b, '$');
  }

  /** So when an item "a$b" is replaced by an item "a", two requests go to the row of "a": in one
      order of arrival the new item is lost, and in both the stale one stays. */
  lemma DollarLosesItem(namespace: string, a: string, b: string, version: nat)
    requires namespace != "" && Plain(namespace) && Plain(a) && Accepted("", namespace, Entry(a, version, None))
    ensures var stale, row := Key(namespace, a + "$" + b), Key(namespace, a);
      var table := map[stale := Item(Some(version), None, false)];
      var allData, names := [Collection(namespace, [Entry(a, version, None)])], [NameOf(stale)];
      && Listing("", table, allData, [stale]) && Remaining("", Puts("", allData), [stale], names)
      && exists first, last :: multiset(first) == multiset(last) == multiset(InitRequests("", allData, names))
           && row !in ApplyAll(table, first) && row in ApplyAll(table, last)
           && stale in ApplyAll(table, first) && stale in ApplyAll(table, last)
  {
    var stale, row, item := Key(namespace, a + "$" + b), Key(namespace, a), Item(Some(version), None, false);
    OneItemRequests(namespace, a, b, version);
    assert InitializedToken("").namespace[0] == '$';
    assert |stale.key| > |row.key|;
    TwoOrders(stale, row, InitializedToken(""), item);
  }

  lemma TwoOrders(stale: Key, row: Key, token: Key, item: Item)
    requires stale != row && stale != token && row != token
    ensures var table, first, last := map[stale := item], [Put(row, item), Delete(row), Put(token, TOKEN_ITEM)],
                                      [Delete(row), Put(row, item), Put(token, TOKEN_ITEM)];
      && multiset(first) == multiset(last)
      && row !in ApplyAll(table, first) && row in ApplyAll(table, last)
      && stale in ApplyAll(table, first) && stale in ApplyAll(table, last)
  {
    ThreeRequests(map[stale := item], Put(row, item), Delete(row), Put(token, TOKEN_ITEM));
    ThreeRequests(map[stale := item], Delete(row), Put(row, item), Put(token, TOKEN_ITEM));
  }

  /** What `init` asks of the table to replace one item by another. */
  lemma OneItemRequests(namespace: string, a: string, b: string, version: nat)
    requires namespace != "" && Plain(namespace) && Plain(a) && Accepted("", namespace, Entry(a, version, None))
    ensures var stale, row, item := Key(namespace, a + "$" + b), Key(namespace, a), Item(Some(version), None, false);
      var allData, names := [Collection(namespace, [Entry(a, version, None)])], [NameOf(stale)];
      && Listing("", map[stale := item], allData, [stale]) && Remaining("", Puts("", allData), [stale], names)
      && InitRequests("", allData, names) == [Put(row, item), Delete(row), Put(InitializedToken(""), TOKEN_ITEM)]
  {
    var stale, row := Key(namespace, a + "$" + b), Key(namespace, a);
    var put := Put(row, Item(Some(version), None, false));
    OneItemPut(namespace, Entry(a, version, None));
    DollarNamesAnotherRow(namespace, a, b);
    assert Deletes([NameOf(stale)]) == [Delete(row)];
    assert |NameOf(stale)| > |NameOf(row)| && NameOf(stale)[0] == namespace[0] && NameOf(InitializedToken(""))[0] == '$';
    OneListed(stale, [put], NameOf(stale), "");
  }

  lemma OneItemPut(namespace: string, entry: Entry)
    requires Accepted("", namespace, entry)
    ensures var allData := [Collection(namespace, [entry])];
      && Puts("", allData) == [Put(Key(namespace, entry.key), MarshalItem(entry))]
      && forall name :: Supplied("", allData, name) <==> name == namespace
  {
    var allData := [Collection(namespace, [entry])];
    assert [entry][..0] == [] && allData[..0] == [] && "" + namespace == namespace;
    assert PutsOf("", namespace, [entry]) == [Put(Key(namespace, entry.key), MarshalItem(entry))];
    assert "" + allData[0].namespace == namespace;
  }

  lemma ThreeRequests(table: Table, a: Request, b: Request, c: Request)
    ensures ApplyAll(table, [a, b, c]) == Apply(Apply(Apply(table, a), b), c)
  {
    assert [a, b, c][..2] == [a, b] && [a, b][..1] == [a] && [a][..0] == [];
    assert ApplyAll(table, [a]) == Apply(table, a);
    assert ApplyAll(table, [a, b]) == Apply(Apply(table, a), b);
  }

  // ----- The store -----

  /** The conditional put of `upsert`: an older or unversioned row gives way. */
  function Upserted(table: Table, key: Key, item: Item): Table {
    if CheckSizeLimit(key, item)
       && (key !in table || table[key].version.None? || item.version.None? || table[key].version.value < item.version.value)
    then table[key := item]
    else table
  }

  datatype Upsert = Upsert(namespace: string, entry: Entry)

  function RunUpserts(table: Table, prefix: string, upserts: seq<Upsert>): Table {
    if |upserts| == 0 then table
    else
      var u := upserts[|upserts| - 1];
      Upserted(RunUpserts(table, prefix, upserts[..|upserts| - 1]), RowKey(prefix, u.namespace, u.entry.key), MarshalItem(u.entry))
  }

  function VersionAt(table: Table, key: Key): int {
    if key !in table || table[key].version.None? then -1 else table[key].version.value
  }

  /** However the conditional puts of several clients are ordered, a row ends with the largest
      version asked for that fits, or keeps what it had, and if it changed, it holds what the
      first request of that version carries. */
  lemma {:induction false} LargestVersionWins(table: Table, prefix: string, upserts: seq<Upsert>, key: Key)
    ensures var after := RunUpserts(table, prefix, upserts);
      && VersionAt(table, key) <= VersionAt(after, key)
      && (forall i :: 0 <= i < |upserts| && Aims(prefix, upserts[i], key) ==> upserts[i].entry.version <= VersionAt(after, key))
      && (Row(after, key) == Row(table, key) ||
            exists i :: 0 <= i < |upserts| && Wins(table, prefix, upserts, key, i) && Holds(Row(after, key), upserts[i].entry))
  {
    if |upserts| > 0 {
      var n := |upserts| - 1;
      LargestVersionWins(table, prefix, upserts[..n], key);
      var before, after := RunUpserts(table, prefix, upserts[..n]), RunUpserts(table, prefix, upserts);
      if Row(after, key) != Row(before, key) {
        assert Aims(prefix, upserts[n], key);
        forall j | 0 <= j < n && Aims(prefix, upserts[j], key) ensures upserts[j].entry.version < upserts[n].entry.version {
          assert Aims(prefix, upserts[..n][j], key);
        }
        assert Wins(table, prefix, upserts, key, n);
      } else if Row(before, key) != Row(table, key) {
        var i :| 0 <= i < n && Wins(table, prefix, upserts[..n], key, i) && Holds(Row(before, key), upserts[..n][i].entry);
        assert Wins(table, prefix, upserts, key, i) by {
          forall j | 0 <= j < i && Aims(prefix, upserts[j], key) ensures upserts[j].entry.version < upserts[i].entry.version {
            assert Aims(prefix, upserts[..n][j], key);
          }
        }
      }
      forall i | 0 <= i < |upserts| && Aims(prefix, upserts[i], key) ensures upserts[i].entry.version <= VersionAt(after, key) {
        if i < n { assert Aims(prefix, upserts[..n][i], key); }
      }
    }
  }

  predicate Aims(prefix: string, u: Upsert, key: Key) {
    key == Key(prefix + u.namespace, u.entry.key) && Accepted(prefix, u.namespace, u.entry)
  }

  /** The first for its row with its version, and above what the row had. */
  predicate Wins(table: Table, prefix: string, upserts: seq<Upsert>, key: Key, i: nat)
    requires i < |upserts|
  {
    && Aims(prefix, upserts[i], key) && VersionAt(table, key) < upserts[i].entry.version
    && forall j :: 0 <= j < i && Aims(prefix, upserts[j], key) ==> upserts[j].entry.version < upserts[i].entry.version
  }

  class FeatureStore {
    const prefix: string
    var table: Table

    constructor (prefix: string, table: Table)
      ensures this.prefix == prefix && this.table == table
    {
      this.prefix, this.table := prefix, table;
    }

    /** One request of a batch reaches the table. */
    method Perform(request: Request)
      modifies this`table
      ensures table == Apply(old(table), request)
    {
      match request
      case Put(key, item) => table := table[key := item];
      case Delete(key) => table := table - {key};
    }

    method PerformAll(order: seq<Request>)
      modifies this`table
      ensures table == ApplyAll(old(table), order)
    {
      for i := 0 to |order|
        invariant table == ApplyAll(old(table), order[..i])
      {
        assert order[..i + 1][..i] == order[..i];
        Perform(order[i]);
      }
      assert order[..|order|] == order;
    }

    /** `listed` is what the queries of the namespaces found, and `arrival` an order in which
        the requests of the concurrent batches may reach the table. */
    method Init(allData: seq<Collection>, listed: seq<Key>, arrival: seq<seq<Request>> -> seq<Request>)
      requires Listing(prefix, table, allData, listed)
      requires forall batches :: multiset(arrival(batches)) == multiset(Flatten(batches))
      modifies this`table
      ensures DistinctData(allData) ==>
                (InitLeaves(prefix, old(table), table, allData, listed) <==> InitWorks(prefix, allData, listed))
    {
      var requests, names := BuildRequests(prefix, allData, listed);
      var batches := SplitIntoBatches(requests);
      var order := arrival(batches);
      PerformAll(order);
      if DistinctData(allData) {
        InitReplaces(prefix, old(table), allData, listed, names, order);
      }
    }

    method Get(namespace: string, key: string) returns (item: Option<Item>)
      ensures item == Row(table, RowKey(prefix, namespace, key))
    {
      var row := RowKey(prefix, namespace, key);
      if row in table { return Some(table[row]); }
      return None;
    }

    /** An item too large is dropped without an error; otherwise the row is read back. */
    method UpsertItem(namespace: string, entry: Entry) returns (updated: Option<Item>)
      modifies this`table
      ensures table == RunUpserts(old(table), prefix, [Upsert(namespace, entry)])
      ensures updated == if Accepted(prefix, namespace, entry) then Row(table, RowKey(prefix, namespace, entry.key)) else None
    {
      assert [Upsert(namespace, entry)][..0] == [];
      var key, item := RowKey(prefix, namespace, entry.key), MarshalItem(entry);
      if !CheckSizeLimit(key, item) { return None; }
      if key !in table || table[key].version.None? || table[key].version.value < entry.version {
        table := table[key := item];
      }
      updated := Get(namespace, entry.key);
    }

    method Initialized() returns (initialized: bool)
      ensures initialized <==> InitializedToken(prefix) in table
    {
      initialized := InitializedToken(prefix) in table;
    }
  }
}
