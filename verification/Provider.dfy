/** Saving and reloading key storage, from crates/leave-crypto/src/provider.rs. */
module Provider {
  import opened Bytes
  import opened Outcomes
  import opened Codec

  type Text = seq<Byte>
  type Storage = map<Text, Text>

  // ----- the order of the entries

  /** Lexicographic order of byte strings. */
  predicate Below(a: Text, b: Text) {
    if b == [] then false
    else if a == [] then true
    else a[0] < b[0] || (a[0] == b[0] && Below(a[1..], b[1..]))
  }

  lemma {:induction false} BelowIsTotal(a: Text, b: Text)
    ensures a == b || Below(a, b) || Below(b, a)
  {
    if a != [] && b != [] && a[0] == b[0] {
      BelowIsTotal(a[1..], b[1..]);
      assert a == [a[0]] + a[1..] && b == [b[0]] + b[1..];
    }
  }

  lemma {:induction false} BelowIsStrict(a: Text)
    ensures !Below(a, a)
  {
    if a != [] { BelowIsStrict(a[1..]); }
  }

  lemma {:induction false} BelowIsTransitive(a: Text, b: Text, c: Text)
    requires Below(a, b) && Below(b, c)
    ensures Below(a, c)
  {
    if a != [] && a[0] == b[0] == c[0] {
      BelowIsTransitive(a[1..], b[1..], c[1..]);
    }
  }

  /** The texts agree on their first `k` bytes, and then the first ends or has the smaller byte. */
  predicate DivergeAt(a: Text, b: Text, k: nat) {
    k <= |a| && k < |b| && a[..k] == b[..k] && (k < |a| ==> a[k] < b[k])
  }

  /** The first difference decides. */
  lemma {:induction false} BelowIs(a: Text, b: Text)
    ensures Below(a, b) <==> exists k :: 0 <= k <= |a| && DivergeAt(a, b, k)
  {
    if b != [] && (a == [] || a[0] < b[0]) {
      assert DivergeAt(a, b, 0);
    } else if b != [] && a[0] == b[0] {
      BelowIs(a[1..], b[1..]);
      if Below(a, b) {
        var k :| 0 <= k <= |a[1..]| && DivergeAt(a[1..], b[1..], k);
        assert a[..k + 1] == [a[0]] + a[1..][..k] && b[..k + 1] == [b[0]] + b[1..][..k];
        assert DivergeAt(a, b, k + 1);
      }
      forall k | 0 <= k <= |a| && DivergeAt(a, b, k) ensures Below(a, b) {
        assert k > 0;
        assert a[1..][..k - 1] == a[..k][1..] && b[1..][..k - 1] == b[..k][1..];
        assert DivergeAt(a[1..], b[1..], k - 1);
      }
    }
  }

  ghost predicate StrictlySorted(keys: seq<Text>) {
    forall i, j :: 0 <= i < j < |keys| ==> Below(keys[i], keys[j])
  }

  ghost function Elements(keys: seq<Text>): set<Text> {
    set key | key in keys
  }

  /** Sorted lists with the same elements are equal. */
  lemma {:induction false} SortedIsUnique(a: seq<Text>, b: seq<Text>)
    requires StrictlySorted(a) && StrictlySorted(b) && Elements(a) == Elements(b)
    ensures a == b
  {
    if a == [] {
      NoElements(b);
    } else {
      FirstIsLeast(a, b);
      FirstIsLeast(b, a);
      assert a[0] == b[0] by {
        if a[0] != b[0] {
          BelowIsTransitive(a[0], b[0], a[0]);
          BelowIsStrict(a[0]);
        }
      }
      RestElements(a);
      RestElements(b);
      SortedIsUnique(a[1..], b[1..]);
      assert a == [a[0]] + a[1..] && b == [b[0]] + b[1..];
    }
  }

  lemma NoElements(keys: seq<Text>)
    requires Elements(keys) == {}
    ensures keys == []
  {
    if keys != [] {
      FirstElement(keys);
    }
  }

  lemma FirstElement(keys: seq<Text>)
    requires keys != []
    ensures keys[0] in Elements(keys)
  {
  }

  lemma FirstIsLeast(a: seq<Text>, b: seq<Text>)
    requires StrictlySorted(a) && Elements(a) == Elements(b) && a != []
    ensures b != [] && (a[0] == b[0] || Below(a[0], b[0]))
  {
    assert a[0] in Elements(b);
    assert b[0] in Elements(a);
  }

  lemma RestElements(a: seq<Text>)
    requires StrictlySorted(a) && a != []
    ensures Elements(a[1..]) == Elements(a) - {a[0]}
  {
    BelowIsStrict(a[0]);
    assert a == [a[0]] + a[1..];
  }

  // ----- what is written

  predicate HasKeys(values: Storage, keys: seq<Text>) {
    forall key :: key in keys ==> key in values
  }

  function Entry(key: Text, value: Text): (bytes: seq<Byte>)
    ensures |bytes| == 8 + |key| + |value|
  {
    Prefixed(key) + Prefixed(value)
  }

  /** Where the parts of an entry stand. */
  lemma EntryLayout(key: Text, value: Text)
    requires |key| <= U32_MAX && |value| <= U32_MAX
    ensures var entry, k := Entry(key, value), |key|;
      && entry[..4] == BigEndian(k) && entry[4..4 + k] == key
      && entry[4 + k..8 + k] == BigEndian(|value|) && entry[8 + k..] == value
  {
  }

  function Entries(values: Storage, keys: seq<Text>): seq<Byte>
    requires HasKeys(values, keys)
  {
    if keys == [] then []
    else Entries(values, keys[..|keys| - 1]) + Entry(keys[|keys| - 1], values[keys[|keys| - 1]])
  }

  lemma EntriesBack(values: Storage, keys: seq<Text>, key: Text)
    requires HasKeys(values, keys + [key])
    ensures HasKeys(values, keys) && key in values
    ensures Entries(values, keys + [key]) == Entries(values, keys) + Entry(key, values[key])
  {
    assert forall k :: k in keys ==> k in keys + [key];
    assert (keys + [key])[..|keys|] == keys;
  }

  lemma {:induction false} EntriesFront(values: Storage, keys: seq<Text>)
    requires HasKeys(values, keys) && keys != []
    ensures Entries(values, keys) == Entry(keys[0], values[keys[0]]) + Entries(values, keys[1..])
  {
    hide Entry;
    var n := |keys| - 1;
    if n > 0 {
      hide Entries;
      var front, last := keys[..n], keys[n];
      assert keys == front + [last] && keys[1..] == front[1..] + [last];
      EntriesBack(values, front, last);
      EntriesBack(values, front[1..], last);
      EntriesFront(values, front);
    } else {
      assert keys[..n] == [] && keys[1..] == [];
    }
  }

  /** The number of entries, then every entry in the order of the keys. */
  ghost predicate IsExport(values: Storage, bytes: seq<Byte>) {
    exists keys :: StrictlySorted(keys) && Elements(keys) == values.Keys && HasKeys(values, keys)
      && bytes == BigEndian(Saturated(|values|)) + Entries(values, keys)
  }

  /** The bytes depend only on the map, not on the order in which it lists its entries. */
  lemma ExportIsStable(values: Storage, a: seq<Byte>, b: seq<Byte>)
    requires IsExport(values, a) && IsExport(values, b)
    ensures a == b
  {
    var p :| StrictlySorted(p) && Elements(p) == values.Keys && HasKeys(values, p)
      && a == BigEndian(Saturated(|values|)) + Entries(values, p);
    var q :| StrictlySorted(q) && Elements(q) == values.Keys && HasKeys(values, q)
      && b == BigEndian(Saturated(|values|)) + Entries(values, q);
    SortedIsUnique(p, q);
  }

  // ----- what is read

  datatype Taken = Taken(key: Text, value: Text, rest: seq<Byte>)

  /** The key and the value at the start of the input. */
  function TakenEntry(input: seq<Byte>): (taken: Option<Taken>)
    ensures taken.Some? ==> 8 + |taken.value.rest| <= |input|
  {
    match TakenBytes(input)
    case None => None
    case Some(key) =>
      match TakenBytes(key.rest)
      case None => None
      case Some(value) => Some(Taken(key.value, value.value, value.rest))
  }

  /** Read `count` entries and insert them, the later of two equal keys winning. */
  function RestoreEntries(count: nat, input: seq<Byte>, values: Storage): Option<(Storage, seq<Byte>)> {
    if count == 0 then Some((values, input))
    else
      match TakenEntry(input)
      case None => None
      case Some(entry) => RestoreEntries(count - 1, entry.rest, values[entry.key := entry.value])
  }

  function Restored(input: seq<Byte>): Option<(Storage, seq<Byte>)> {
    match TakenCount(input)
    case None => None
    case Some(count) => RestoreEntries(count, input[4..], map[])
  }

  /** How many entries are inserted before the input ends or the count is reached. */
  function EntriesRead(count: nat, input: seq<Byte>): nat {
    if count == 0 || TakenEntry(input).None? then 0
    else 1 + EntriesRead(count - 1, TakenEntry(input).value.rest)
  }

  /** A declared count costs nothing: every entry read uses up at least eight bytes of input. */
  lemma {:induction false} ReadsAreBounded(count: nat, input: seq<Byte>)
    ensures 8 * EntriesRead(count, input) <= |input|
    decreases count
  {
    hide TakenEntry;
    if count > 0 && TakenEntry(input).Some? {
      ReadsAreBounded(count - 1, TakenEntry(input).value.rest);
    }
  }

  predicate ShortText(text: Text) {
    |text| <= U32_MAX
  }

  ghost predicate ShortTexts(values: Storage) {
    forall key :: key in values ==> ShortText(key) && ShortText(values[key])
  }

  ghost predicate Fits(values: Storage) {
    |values| <= U32_MAX && ShortTexts(values)
  }

  lemma EntryIsRead(key: Text, value: Text, rest: seq<Byte>)
    requires ShortText(key) && ShortText(value)
    ensures TakenEntry(Entry(key, value) + rest) == Some(Taken(key, value, rest))
  {
    var input, after := Entry(key, value) + rest, Prefixed(value) + rest;
    assert input == Prefixed(key) + after;
    TakenIsPrefixed(input, key, after);
    TakenIsPrefixed(after, value, rest);
  }

  lemma EntryIsShort(input: seq<Byte>)
    requires TakenEntry(input).Some?
    ensures ShortText(TakenEntry(input).value.key) && ShortText(TakenEntry(input).value.value)
  {
    var entry, after := TakenEntry(input).value, TakenBytes(input).value.rest;
    TakenIsPrefixed(input, entry.key, after);
    TakenIsPrefixed(after, entry.value, entry.rest);
  }

  /** Insert the entries of `keys` one after the other. */
  ghost function Inserted(values: Storage, m: Storage, keys: seq<Text>): (all: Storage)
    requires HasKeys(m, keys)
    ensures forall key :: key in all <==> key in values || key in keys
    ensures forall key :: key in all ==> all[key] == if key in keys then m[key] else values[key]
    decreases |keys|
  {
    if keys == [] then values
    else
      assert keys == [keys[0]] + keys[1..];
      Inserted(values[keys[0] := m[keys[0]]], m, keys[1..])
  }

  lemma {:induction false} EntriesAreRead(m: Storage, keys: seq<Text>, rest: seq<Byte>, values: Storage)
    requires HasKeys(m, keys) && ShortTexts(m)
    ensures RestoreEntries(|keys|, Entries(m, keys) + rest, values) == Some((Inserted(values, m, keys), rest))
    decreases |keys|
  {
    if keys == [] {
      assert Entries(m, keys) + rest == rest;
    } else {
      var key, tail := keys[0], keys[1..];
      EntriesFront(m, keys);
      assert Entries(m, keys) + rest == Entry(key, m[key]) + (Entries(m, tail) + rest);
      EntryIsRead(key, m[key], Entries(m, tail) + rest);
      EntriesAreRead(m, tail, rest, values[key := m[key]]);
    }
  }

  lemma {:induction false} SortedSize(keys: seq<Text>)
    requires StrictlySorted(keys)
    ensures |Elements(keys)| == |keys|
  {
    if keys != [] {
      RestElements(keys);
      SortedSize(keys[1..]);
      assert keys[0] in Elements(keys);
    }
  }

  lemma InsertedAll(m: Storage, keys: seq<Text>)
    requires Elements(keys) == m.Keys && HasKeys(m, keys)
    ensures Inserted(map[], m, keys) == m
  {
    assert forall key :: key in keys <==> key in Elements(keys);
  }

  lemma CountedEntries(n: nat, entries: seq<Byte>)
    requires n <= U32_MAX
    ensures TakenCount(BigEndian(n) + entries) == Some(n) && (BigEndian(n) + entries)[4..] == entries
  {
    assert (BigEndian(n) + entries)[..4] == BigEndian(n);
    LengthRoundTrip(n);
  }

  lemma RestoreOfExport(m: Storage, bytes: seq<Byte>, rest: seq<Byte>)
    requires IsExport(m, bytes) && Fits(m)
    ensures Restored(bytes + rest) == Some((m, rest))
  {
    var keys :| StrictlySorted(keys) && Elements(keys) == m.Keys && HasKeys(m, keys)
      && bytes == BigEndian(Saturated(|m|)) + Entries(m, keys);
    SortedSize(keys);
    assert |m| == |m.Keys|;
    assert bytes + rest == BigEndian(|m|) + (Entries(m, keys) + rest);
    CountedEntries(|m|, Entries(m, keys) + rest);
    EntriesAreRead(m, keys, rest, map[]);
    InsertedAll(m, keys);
  }

  lemma SizeGrows(values: Storage, key: Text, value: Text)
    ensures |values[key := value]| <= |values| + 1
  {
    var next := values[key := value];
    assert next.Keys == values.Keys + {key};
    assert |next| == |next.Keys| && |values| == |values.Keys|;
  }

  lemma ShortInserted(values: Storage, key: Text, value: Text)
    requires ShortTexts(values) && ShortText(key) && ShortText(value)
    ensures ShortTexts(values[key := value])
  {
  }

  lemma EntryStep(count: nat, input: seq<Byte>, values: Storage, entry: Taken)
    requires count > 0 && TakenEntry(input) == Some(entry)
    ensures RestoreEntries(count, input, values)
      == RestoreEntries(count - 1, entry.rest, values[entry.key := entry.value])
  {
  }

  /** What can be read at all is within 32 bits. */
  lemma {:induction false} ReadIsShort(count: nat, input: seq<Byte>, values: Storage, m: Storage, rest: seq<Byte>)
    requires ShortTexts(values) && RestoreEntries(count, input, values) == Some((m, rest))
    ensures |m| <= |values| + count && ShortTexts(m)
    decreases count
  {
    hide TakenEntry;
    if count > 0 {
      assert TakenEntry(input).Some?;
      var entry := TakenEntry(input).value;
      EntryStep(count, input, values, entry);
      EntryIsShort(input);
      SizeGrows(values, entry.key, entry.value);
      ShortInserted(values, entry.key, entry.value);
      ReadIsShort(count - 1, entry.rest, values[entry.key := entry.value], m, rest);
    }
  }

  /** Restoring what was exported gives the map back and leaves what follows, for exactly the maps
    whose size and lengths fit 32 bits. */
  lemma RestoreUndoesExport(m: Storage, bytes: seq<Byte>, rest: seq<Byte>)
    requires IsExport(m, bytes)
    ensures Restored(bytes + rest) == Some((m, rest)) <==> Fits(m)
  {
    if Restored(bytes + rest) == Some((m, rest)) {
      var input := bytes + rest;
      ReadIsShort(FromBigEndian(input[..4]), input[4..], map[], m, rest);
    }
    if Fits(m) {
      RestoreOfExport(m, bytes, rest);
    }
  }

  /** Different maps have different exports, neither the start of the other. */
  lemma ExportIsInjective(m: Storage, n: Storage, a: seq<Byte>, b: seq<Byte>)
    requires IsExport(m, a) && IsExport(n, b) && Fits(m) && Fits(n) && a <= b
    ensures m == n && a == b
  {
    RestoreOfExport(m, a, b[|a|..]);
    RestoreOfExport(n, b, []);
    assert a + b[|a|..] == b == b + [];
  }

  // ----- which inputs are accepted

  datatype Pair = Pair(key: Text, value: Text)

  predicate ShortPair(p: Pair) {
    ShortText(p.key) && ShortText(p.value)
  }

  function Listed(pairs: seq<Pair>): seq<Byte> {
    if pairs == [] then [] else Entry(pairs[0].key, pairs[0].value) + Listed(pairs[1..])
  }

  /** The map after inserting every pair in order. */
  function WithPairs(values: Storage, pairs: seq<Pair>): Storage
    decreases |pairs|
  {
    if pairs == [] then values else WithPairs(values[pairs[0].key := pairs[0].value], pairs[1..])
  }

  ghost predicate IsLast(pairs: seq<Pair>, i: int, key: Text) {
    0 <= i < |pairs| && pairs[i].key == key && forall j :: i < j < |pairs| ==> pairs[j].key != key
  }

  lemma {:induction false} OtherPairs(values: Storage, pairs: seq<Pair>, key: Text)
    requires forall p :: p in pairs ==> p.key != key
    ensures key in WithPairs(values, pairs) <==> key in values
    ensures key in values ==> WithPairs(values, pairs)[key] == values[key]
    decreases |pairs|
  {
    if pairs != [] {
      OtherPairs(values[pairs[0].key := pairs[0].value], pairs[1..], key);
    }
  }

  /** Of the pairs with the same key the last one counts. */
  lemma {:induction false} LastPairWins(values: Storage, pairs: seq<Pair>, key: Text, i: nat)
    requires IsLast(pairs, i, key)
    ensures key in WithPairs(values, pairs) && WithPairs(values, pairs)[key] == pairs[i].value
    decreases |pairs|
  {
    var next := values[pairs[0].key := pairs[0].value];
    if i > 0 {
      LastPairWins(next, pairs[1..], key, i - 1);
    } else {
      OtherPairs(next, pairs[1..], key);
    }
  }

  lemma OnePairMore(p: Pair, tail: seq<Pair>, values: Storage, rest: seq<Byte>)
    requires ShortPair(p) && forall q :: q in tail ==> ShortPair(q)
    ensures forall q :: q in [p] + tail ==> ShortPair(q)
    ensures Listed([p] + tail) + rest == Entry(p.key, p.value) + (Listed(tail) + rest)
    ensures WithPairs(values, [p] + tail) == WithPairs(values[p.key := p.value], tail)
  {
    var pairs := [p] + tail;
    assert pairs[0] == p && pairs[1..] == tail;
  }

  /** What reading accepts is a list of short entries, and the map is what they insert. */
  lemma {:induction false} ReadWasListed(count: nat, input: seq<Byte>, values: Storage, m: Storage, rest: seq<Byte>)
    returns (pairs: seq<Pair>)
    requires RestoreEntries(count, input, values) == Some((m, rest))
    ensures |pairs| == count && (forall p :: p in pairs ==> ShortPair(p))
    ensures input == Listed(pairs) + rest && m == WithPairs(values, pairs)
    decreases count
  {
    hide TakenEntry, Entry;
    if count == 0 {
      pairs := [];
    } else {
      hide Listed, WithPairs;
      assert TakenEntry(input).Some?;
      var entry := TakenEntry(input).value;
      EntryStep(count, input, values, entry);
      EntryIsShort(input);
      EntryWasWritten(input, entry);
      var tail := ReadWasListed(count - 1, entry.rest, values[entry.key := entry.value], m, rest);
      pairs := [Pair(entry.key, entry.value)] + tail;
      OnePairMore(Pair(entry.key, entry.value), tail, values, rest);
    }
  }

  lemma EntryWasWritten(input: seq<Byte>, entry: Taken)
    requires TakenEntry(input) == Some(entry)
    ensures input == Entry(entry.key, entry.value) + entry.rest
  {
    var after := TakenBytes(input).value.rest;
    TakenIsPrefixed(input, entry.key, after);
    TakenIsPrefixed(after, entry.value, entry.rest);
  }

  lemma {:induction false} ListedIsRead(pairs: seq<Pair>, values: Storage, rest: seq<Byte>)
    requires forall p :: p in pairs ==> ShortPair(p)
    ensures RestoreEntries(|pairs|, Listed(pairs) + rest, values) == Some((WithPairs(values, pairs), rest))
    decreases |pairs|
  {
    hide Prefixed;
    if pairs == [] {
      assert Listed(pairs) + rest == rest;
    } else {
      var p, tail := pairs[0], pairs[1..];
      var input, after := Listed(pairs) + rest, Listed(tail) + rest;
      assert ShortPair(p);
      assert input == Entry(p.key, p.value) + after;
      EntryIsRead(p.key, p.value, after);
      EntryStep(|pairs|, input, values, Taken(p.key, p.value, after));
      ListedIsRead(tail, values[p.key := p.value], rest);
    }
  }

  /** The input is a count, that many short entries and the rest; the map is what they insert. */
  ghost predicate Lists(input: seq<Byte>, pairs: seq<Pair>, m: Storage, rest: seq<Byte>) {
    && |pairs| <= U32_MAX && (forall p :: p in pairs ==> ShortPair(p))
    && input == BigEndian(|pairs|) + (Listed(pairs) + rest) && m == WithPairs(map[], pairs)
  }

  /** Any input is accepted exactly when it lists entries, in any order and with repetitions. */
  lemma RestoredIsListed(input: seq<Byte>, m: Storage, rest: seq<Byte>)
    ensures Restored(input) == Some((m, rest)) <==> exists pairs :: Lists(input, pairs, m, rest)
  {
    if Restored(input) == Some((m, rest)) {
      var pairs := ReadWasListed(FromBigEndian(input[..4]), input[4..], map[], m, rest);
      BytesOfLength(input[..4]);
      assert input == input[..4] + input[4..];
      assert Lists(input, pairs, m, rest);
    }
    if exists pairs :: Lists(input, pairs, m, rest) {
      var pairs :| Lists(input, pairs, m, rest);
      CountedEntries(|pairs|, Listed(pairs) + rest);
      ListedIsRead(pairs, map[], rest);
    }
  }

  // ----- the provider

  class LeaveProvider {
    var values: Storage

    constructor (values: Storage)
      ensures this.values == values
    {
      this.values := values;
    }

    method Export(buffer: Buffer)
      modifies buffer
      ensures exists bytes :: IsExport(values, bytes) && buffer.bytes == old(buffer.bytes) + bytes
    {
      ghost var start := buffer.bytes;
      buffer.PutCount(|values|);
      var keys := SortedKeys(values);
      ExportEntries(keys, buffer);
      ghost var bytes := BigEndian(Saturated(|values|)) + Entries(values, keys);
      assert buffer.bytes == start + bytes;
      assert IsExport(values, bytes);
    }

    method ExportEntries(keys: seq<Text>, buffer: Buffer)
      requires HasKeys(values, keys)
      modifies buffer
      ensures buffer.bytes == old(buffer.bytes) + Entries(values, keys)
    {
      ghost var start := buffer.bytes;
      for i := 0 to |keys|
        invariant buffer.bytes == start + Entries(values, keys[..i])
      {
        assert keys[i] in keys && keys[..i + 1][..i] == keys[..i];
        buffer.PutBytes(keys[i]);
        buffer.PutBytes(values[keys[i]]);
      }
      assert keys[..|keys|] == keys;
    }

    static method TakeEntry(cursor: Cursor) returns (result: Result<(Text, Text), CryptoError>)
      modifies cursor
      ensures result.Ok? ==> TakenEntry(old(cursor.rest)) == Some(Taken(result.value.0, result.value.1, cursor.rest))
      ensures result.Err? ==> result.error == Group && TakenEntry(old(cursor.rest)) == None
    {
      var key := cursor.TakeBytes();
      if key.Err? {
        return Err(key.error);
      }
      var value := cursor.TakeBytes();
      if value.Err? {
        return Err(value.error);
      }
      return Ok((key.value, value.value));
    }

    static method Restore(cursor: Cursor) returns (result: Result<Storage, CryptoError>, ghost read: nat)
      modifies cursor
      ensures result.Ok? ==> Restored(old(cursor.rest)) == Some((result.value, cursor.rest))
      ensures result.Err? ==> result.error == Group && Restored(old(cursor.rest)) == None
      ensures 8 * read <= |old(cursor.rest)|
    {
      ghost var input := cursor.rest;
      var count := cursor.TakeCount();
      if count.Err? {
        return Err(Group), 0;
      }
      assert cursor.rest == input[4..];
      result, read := RestoreAll(cursor, count.value);
      ReadsAreBounded(count.value, input[4..]);
    }

    static method RestoreAll(cursor: Cursor, count: nat) returns (result: Result<Storage, CryptoError>, ghost read: nat)
      modifies cursor
      ensures result.Ok? ==> RestoreEntries(count, old(cursor.rest), map[]) == Some((result.value, cursor.rest))
      ensures result.Err? ==> result.error == Group && RestoreEntries(count, old(cursor.rest), map[]) == None
      ensures read == EntriesRead(count, old(cursor.rest))
    {
      hide TakenEntry;
      read := 0;
      var values: Storage := map[];
      ghost var input := cursor.rest;
      for i := 0 to count
        invariant RestoreEntries(count, input, map[]) == RestoreEntries(count - i, cursor.rest, values)
        invariant read == i && EntriesRead(count, input) == i + EntriesRead(count - i, cursor.rest)
      {
        var entry := TakeEntry(cursor);
        if entry.Err? {
          return Err(Group), read;
        }
        values := values[entry.value.0 := entry.value.1];
        read := read + 1;
      }
      result := Ok(values);
    }
  }

  /** Insert a key into sorted keys. */
  function Insert(key: Text, keys: seq<Text>): seq<Text> {
    if keys == [] || Below(key, keys[0]) then [key] + keys else [keys[0]] + Insert(key, keys[1..])
  }

  lemma {:induction false} InsertKeeps(key: Text, keys: seq<Text>)
    requires StrictlySorted(keys) && key !in keys
    ensures StrictlySorted(Insert(key, keys)) && forall k :: k in Insert(key, keys) <==> k == key || k in keys
  {
    if keys != [] {
      assert keys == [keys[0]] + keys[1..];
      if Below(key, keys[0]) {
        forall j | 0 < j < |keys| ensures Below(key, keys[j]) {
          BelowIsTransitive(key, keys[0], keys[j]);
        }
      } else {
        BelowIsTotal(key, keys[0]);
        InsertKeeps(key, keys[1..]);
        var rest := Insert(key, keys[1..]);
        forall j | 0 <= j < |rest| ensures Below(keys[0], rest[j]) {
          assert rest[j] in rest;
        }
      }
    }
  }

  /** The keys in order, in whatever order the map lists them. */
  method SortedKeys(values: Storage) returns (keys: seq<Text>)
    ensures StrictlySorted(keys) && Elements(keys) == values.Keys && HasKeys(values, keys)
  {
    keys := [];
    var left := values.Keys;
    while left != {}
      invariant left <= values.Keys && StrictlySorted(keys)
      invariant forall key :: key in keys <==> key in values.Keys - left
      decreases left
    {
      var key :| key in left;
      InsertKeeps(key, keys);
      keys := Insert(key, keys);
      left := left - {key};
    }
  }
}
