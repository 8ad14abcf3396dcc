/**
  The hash table as a heap structure: an array of slots, and the stored items threaded by
  `previous` and `next` from the newest item `node`.
 */
module HashTable {
  import opened CStrings
  import opened Wrappers
  import opened HashSpec

  class Item {
    const key: nat
    const value: CStr
    var previous: Item?
    var next: Item?

    constructor (key: nat, value: CStr)
      ensures this.key == key && this.value == value
      ensures previous == null && next == null
    {
      this.key := key;
      this.value := value;
      previous := null;
      next := null;
    }
  }

  /** How many characters the cursor at `p` has looked at; the terminator adds nothing. */
  ghost function Seen(str: CStr, p: nat): nat {
    if p < |str| then p + 1 else |str|
  }

  /** The hash with the cursor at `p`; the first character is not in it. */
  ghost function Hashed(str: CStr, p: nat): nat
    requires p <= |str|
  {
    if str == [] then 0 else Sum(str[1..Seen(str, p)]) % UINT_RANGE
  }

  lemma HashStart(str: CStr)
    ensures Hashed(str, 0) == 0
  {
  }

  lemma AddModulo(a: int, b: int)
    ensures UINT_RANGE > 0 && (a % UINT_RANGE + b) % UINT_RANGE == (a + b) % UINT_RANGE
  {
  }

  lemma HashStep(str: CStr, p: nat)
    requires p < |str|
    ensures UINT_RANGE > 0 && Hashed(str, p + 1) == (Hashed(str, p) + At(str, p + 1)) % UINT_RANGE
  {
    AddModulo(Sum(str[1..p + 1]), At(str, p + 1));
    if p + 1 < |str| {
      assert str[1..p + 2][..p] == str[1..p + 1];
    }
  }

  lemma HashEnd(str: CStr)
    ensures KEY_RANGE > 0 && Hashed(str, |str|) % KEY_RANGE == Key(str)
  {
    assert str != [] ==> str[1..|str|] == str[1..];
  }

  /** The hash loop: the cursor advances before the character is added. */
  method KeyGenerator(str: CStr) returns (key: nat)
    ensures key == Key(str)
  {
    hide Hashed, Key;
    HashStart(str);
    var hash: nat := 0;
    var p := 0;
    while At(str, p) != 0
      invariant p <= |str| && hash == Hashed(str, p)
      decreases |str| - p
    {
      HashStep(str, p);
      p := p + 1;
      hash := (hash + At(str, p)) % UINT_RANGE;
    }
    HashEnd(str);
    key := hash % KEY_RANGE;
  }

  /** Creates an item unless the value is missing, too long, or has key 0 or 1. */
  method CreateItem(value: Option<CStr>) returns (item: Item?)
    ensures item == null <==> value.None? || !Storable(value.value)
    ensures item != null ==>
              && fresh(item) && item.value == value.value && item.key == Key(item.value)
              && item.previous == null && item.next == null
  {
    if value.None? {
      return null;
    }
    if |value.value| > MAX_VALUE_LEN {
      return null;
    }
    var key := KeyGenerator(value.value);
    if key <= 1 {
      return null;
    }
    item := new Item(key, value.value);
  }

  class HashTable {
    const table: array<Item?>
    const size: nat
    var node: Item?
    var count: nat
    ghost var chain: seq<Item>   // the stored items, oldest first
    ghost var repr: set<object>  // the table, its slots and its items

    ghost predicate Valid()
      reads this, repr
      ensures Valid() ==> this in repr
    {
      && this in repr && table in repr && (forall i :: 0 <= i < |chain| ==> chain[i] in repr)
      && size == TABLE_SIZE && table.Length == size
      && count == |chain|
      && ChainOk()
      && SlotsOk()
    }

    /** A doubly linked, acyclic chain that ends at `node`. */
    ghost predicate ChainOk()
      reads this, chain
    {
      && node == (if chain == [] then null else chain[|chain| - 1])
      && (forall i :: 0 <= i < |chain| ==> Linked(i))
      && (forall i, j :: 0 <= i < j < |chain| ==> chain[i] != chain[j])
    }

    /** Occupied slots and chained items correspond one to one, by key. */
    ghost predicate SlotsOk()
      reads this, table
    {
      && table.Length == TABLE_SIZE
      && (forall i :: 0 <= i < |chain| ==>
            Storable(chain[i].value) && chain[i].key == Key(chain[i].value) && table[chain[i].key] == chain[i])
      && (forall k :: 0 <= k < TABLE_SIZE && table[k] != null ==> table[k] in chain && table[k].key == k)
    }

    /** `previous` and `next` of the i-th item are its neighbours in insertion order. */
    ghost predicate Linked(i: nat)
      requires i < |chain|
      reads this, chain
    {
      && chain[i].previous == (if i == 0 then null else chain[i - 1])
      && chain[i].next == (if i + 1 == |chain| then null else chain[i + 1])
    }

    ghost function Values(): (vals: seq<CStr>)
      reads this
      ensures |vals| == |chain|
      ensures forall i :: 0 <= i < |chain| ==> vals[i] == chain[i].value
    {
      seq(|chain|, i requires 0 <= i < |chain| reads this => chain[i].value)
    }

    constructor ()
      ensures Valid() && chain == [] && Values() == []
      ensures fresh(repr)
    {
      var slots := new Item?[TABLE_SIZE](_ => null);
      table := slots;
      size := TABLE_SIZE;
      node := null;
      count := 0;
      chain := [];
      repr := {this, slots};
    }

    /** A slot is empty exactly when no stored value has its key; else it holds that value. */
    lemma SlotsHoldValues(k: nat)
      requires Valid() && k < size
      ensures Slot(Values(), k) == (if table[k] == null then None else Some(table[k].value))
    {
      SlotMeaning(Values(), k);
      if table[k] != null {
        var i :| 0 <= i < |chain| && chain[i] == table[k];
        assert Values()[i] == chain[i].value;
      }
    }

    /** In a table that went through a history, slot k holds the first storable value with key k, or nothing. */
    lemma SlotHoldsWinner(history: seq<CStr>, k: nat)
      requires Valid() && Values() == Replay([], history) && k < size
      ensures table[k] == null <==> !exists i: nat :: FirstWithKey(history, k, i)
      ensures forall i: nat :: FirstWithKey(history, k, i) ==> table[k] != null && table[k].value == history[i]
    {
      SlotsHoldValues(k);
      FirstWins(history, k);
    }

    lemma ValuesWellFormed()
      requires Valid()
      ensures WellFormed(Values()) && count == |Values()| && size == TABLE_SIZE
    {
      forall i, j | 0 <= i < j < |chain| ensures Key(Values()[i]) != Key(Values()[j]) {
        assert table[chain[i].key] == chain[i] != chain[j] == table[chain[j].key];
      }
    }

    /** In every valid table the test for a full table fails. */
    lemma NeverFull()
      requires Valid()
      ensures count <= TABLE_SIZE - 2 && count != size
    {
      ValuesWellFormed();
      CountBound(Values());
    }

    lemma AtNewest()
      requires Valid()
      ensures |chain| == |Values()| && node == if chain == [] then null else chain[|chain| - 1]
    {
    }

    lemma AtItem(i: nat)
      requires Valid() && i < |chain|
      ensures |chain| == |Values()| && Values()[i] == chain[i].value
      ensures chain[i].previous == if i == 0 then null else chain[i - 1]
    {
      assert Linked(i);
    }

    /** Lookup by key or by value; any other combination of arguments finds nothing. */
    method Search(key: nat, value: Option<CStr>) returns (item: Item?)
      requires Valid() && key < size
      ensures item == null ==>
                (key == 0 && value.Some? ==> Slot(Values(), Key(value.value)) == None)
                && (key != 0 && value.None? ==> Slot(Values(), key) == None)
      ensures item != null ==>
                && item in chain
                && ((key == 0) <==> value.Some?)
                && Slot(Values(), if key == 0 then Key(value.value) else key) == Some(item.value)
    {
      if key == 0 && value.Some? {
        var k := KeyGenerator(value.value);
        SlotsHoldValues(k);
        item := table[k];
      } else if key != 0 && value.None? {
        SlotsHoldValues(key);
        item := table[key];
      } else {
        item := null;
      }
    }

    /** The stores that put a new item into its slot and at the newest end of the chain. */
    method Link(item: Item)
      requires Valid() && item !in chain && item.previous == null && item.next == null
      requires Storable(item.value) && item.key == Key(item.value) && table[item.key] == null
      modifies repr, item
      ensures Valid() && repr == old(repr) + {item} && chain == old(chain) + [item] && Values() == old(Values()) + [item.value]
    {
      hide Storable, Slot, Key;
      table[item.key] := item;
      if node == null {
        node := table[item.key];
      } else {
        node.next := item;
        item.previous := node;
        node := item;
      }
      count := count + 1;
      chain := chain + [item];
      repr := repr + {item};
      ghost var n := |old(chain)|;
      forall i | 0 <= i < |chain|
        ensures Linked(i)
      {
        if i < n {
          assert old(Linked(i)) && chain[i] == old(chain)[i] != item;
          assert i < n - 1 ==> old(chain)[i] != old(chain)[n - 1];
        }
      }
    }

    method Insert(value: Option<CStr>) returns (rc: nat)
      requires Valid()
      modifies repr
      ensures Valid() && fresh(repr - old(repr))
      ensures rc == if value.None? then 2 else InsertCode(old(Values()), value.value)
      ensures Values() == if value.None? then old(Values()) else HashSpec.Insert(old(Values()), value.value)
      ensures chain == old(chain) || (|chain| == |old(chain)| + 1 && chain[..|old(chain)|] == old(chain) && fresh(chain[|chain| - 1]))
      ensures chain == old(chain) ==> unchanged(this) && unchanged(table) && forall it | it in chain :: unchanged(it)
    {
      if value.None? {
        return 2;
      }
      if count == size {
        return 1;
      }
      var key := KeyGenerator(value.value);
      if key == 0 {
        return 1;
      }
      var item := CreateItem(value);
      if item == null {
        return 1;
      }
      SlotsHoldValues(key);
      if table[key] == null {
        Link(item);
      } else if table[key].key == key {
        if StrncmpEqual(table[key].value, item.value, |table[key].value|) {
          // a repetition, not an error
        } else {
          return 2;
        }
      }
      return 0;
    }

    /** The reader's walk when nothing is inserted meanwhile: every stored value, newest first. */
    method Walk() returns (visited: seq<CStr>)
      requires Valid()
      ensures |visited| == count
      ensures forall i :: 0 <= i < count ==> visited[i] == Values()[count - 1 - i]
    {
      visited := [];
      var hi := node;
      while hi != null
        invariant |visited| <= |chain|
        invariant hi == if |visited| == |chain| then null else chain[|chain| - 1 - |visited|]
        invariant forall i :: 0 <= i < |visited| ==> visited[i] == chain[|chain| - 1 - i].value
        decreases |chain| - |visited|
      {
        assert Linked(|chain| - 1 - |visited|);
        visited := visited + [hi.value];
        hi := hi.previous;
      }
    }
  }

  /** Inserts a whole history into a new table. */
  method Populate(history: seq<CStr>) returns (t: HashTable)
    ensures t.Valid() && fresh(t.repr)
    ensures t.Values() == Replay([], history)
    ensures forall k :: 0 <= k < t.size ==>
              (t.table[k] == null <==> !exists i: nat :: FirstWithKey(history, k, i))
    ensures forall k, i: nat :: 0 <= k < t.size && FirstWithKey(history, k, i) ==>
              t.table[k] != null && t.table[k].value == history[i]
    ensures t.count <= TABLE_SIZE - 2
  {
    hide HashTable.Valid, Slot, Storable, Key, Replay, HashSpec.Insert, InsertCode;
    NothingInserted(history);
    t := new HashTable();
    for n := 0 to |history|
      invariant t.Valid() && fresh(t.repr)
      invariant t.Values() == Replay([], history[..n])
    {
      OneMoreInserted(history, n);
      var _ := t.Insert(Some(history[n]));
    }
    assert history[..|history|] == history;
    t.NeverFull();
    forall k | 0 <= k < t.size
      ensures t.table[k] == null <==> !exists i: nat :: FirstWithKey(history, k, i)
      ensures forall i: nat :: FirstWithKey(history, k, i) ==> t.table[k] != null && t.table[k].value == history[i]
    {
      t.SlotHoldsWinner(history, k);
    }
  }

  lemma NothingInserted(history: seq<CStr>)
    ensures Replay([], history[..0]) == []
  {
  }

  lemma OneMoreInserted(history: seq<CStr>, n: nat)
    requires n < |history|
    ensures Replay([], history[..n + 1]) == HashSpec.Insert(Replay([], history[..n]), history[n])
  {
    assert history[..n + 1][..n] == history[..n];
  }
}
