/**
  The value-level meaning of the hash table: a list of stored values, oldest first, and what an
  insertion does to it. The heap form (HashTable) and the store-by-store form (ChainWalk) are both
  proved to implement `Insert`.
 */
module HashSpec {
  import opened CStrings
  import opened Wrappers

  const UINT_RANGE := 0x1_0000_0000
  const KEY_RANGE: nat := 10000
  const TABLE_SIZE: nat := KEY_RANGE
  const MAX_VALUE_LEN: nat := 512

  /** The key of a string: the first character is never counted. */
  function Key(s: CStr): (k: nat)
    ensures k < KEY_RANGE
  {
    if s == [] then 0 else (Sum(s[1..]) % UINT_RANGE) % KEY_RANGE
  }

  /** An item is created only for short values whose key is neither 0 nor 1. */
  predicate Storable(v: CStr) {
    |v| <= MAX_VALUE_LEN && Key(v) >= 2
  }

  /** The oldest value of `vals` with key `k`. */
  function Slot(vals: seq<CStr>, k: nat): Option<CStr> {
    if vals == [] then None
    else
      var earlier := Slot(vals[..|vals| - 1], k);
      if earlier.Some? then earlier
      else if Key(vals[|vals| - 1]) == k then Some(vals[|vals| - 1])
      else None
  }

  function Insert(vals: seq<CStr>, v: CStr): seq<CStr> {
    if |vals| == TABLE_SIZE || !Storable(v) || Slot(vals, Key(v)).Some? then vals else vals + [v]
  }

  function InsertCode(vals: seq<CStr>, v: CStr): nat {
    if |vals| == TABLE_SIZE || !Storable(v) then 1
    else match Slot(vals, Key(v))
      case None => 0
      case Some(w) => if StrncmpEqual(w, v, |w|) then 0 else 2
  }

  /** The stored values after a whole insertion history. */
  function Replay(vals: seq<CStr>, history: seq<CStr>): seq<CStr> {
    if history == [] then vals
    else Insert(Replay(vals, history[..|history| - 1]), history[|history| - 1])
  }

  lemma {:induction false} ReplayAppend(vals: seq<CStr>, h1: seq<CStr>, h2: seq<CStr>)
    ensures Replay(vals, h1 + h2) == Replay(Replay(vals, h1), h2)
  {
    if h2 == [] {
      assert h1 + h2 == h1;
    } else {
      assert (h1 + h2)[..|h1 + h2| - 1] == h1 + h2[..|h2| - 1];
      ReplayAppend(vals, h1, h2[..|h2| - 1]);
    }
  }

  // ---------- Slots ----------

  ghost predicate Distinct(vals: seq<CStr>) {
    forall i, j :: 0 <= i < j < |vals| ==> Key(vals[i]) != Key(vals[j])
  }

  ghost predicate WellFormed(vals: seq<CStr>) {
    && Distinct(vals)
    && forall i :: 0 <= i < |vals| ==> Storable(vals[i])
  }

  /** Slot k is empty exactly when no value has key k; else it holds the first such value. */
  lemma {:induction false} SlotMeaning(vals: seq<CStr>, k: nat)
    ensures Slot(vals, k).None? ==> forall i :: 0 <= i < |vals| ==> Key(vals[i]) != k
    ensures Slot(vals, k).Some? ==>
              exists i :: 0 <= i < |vals| && vals[i] == Slot(vals, k).value && Key(vals[i]) == k
                          && forall j :: 0 <= j < i ==> Key(vals[j]) != k
  {
    if vals != [] {
      var n := |vals| - 1;
      SlotMeaning(vals[..n], k);
      if Slot(vals[..n], k).Some? {
        var i :| 0 <= i < n && vals[..n][i] == Slot(vals, k).value && Key(vals[..n][i]) == k
                 && forall j :: 0 <= j < i ==> Key(vals[..n][j]) != k;
        assert vals[i] == Slot(vals, k).value && Key(vals[i]) == k;
        assert forall j :: 0 <= j < i ==> Key(vals[j]) == Key(vals[..n][j]) != k;
      } else {
        assert forall j :: 0 <= j < n ==> Key(vals[j]) == Key(vals[..n][j]) != k;
      }
    }
  }

  /** With one value per key, any value with key k is the one in slot k. */
  lemma SlotOf(vals: seq<CStr>, i: nat)
    requires Distinct(vals) && i < |vals|
    ensures Slot(vals, Key(vals[i])) == Some(vals[i])
  {
    SlotMeaning(vals, Key(vals[i]));
  }

  /** An insertion fills the empty slot of a storable value and changes no other slot. */
  lemma SlotAfterInsert(vals: seq<CStr>, v: CStr, k: nat)
    requires |vals| < TABLE_SIZE
    ensures Slot(Insert(vals, v), k) ==
            if Slot(vals, k).None? && Storable(v) && Key(v) == k then Some(v) else Slot(vals, k)
  {
    assert (vals + [v])[..|vals|] == vals;
  }

  lemma InsertKeepsWellFormed(vals: seq<CStr>, v: CStr)
    requires WellFormed(vals)
    ensures WellFormed(Insert(vals, v))
  {
    SlotMeaning(vals, Key(v));
  }

  /** Keys 0 and 1 are never in use. */
  lemma LowSlotsFree(vals: seq<CStr>, k: nat)
    requires WellFormed(vals) && k < 2
    ensures Slot(vals, k) == None
  {
    SlotMeaning(vals, k);
  }

  lemma {:induction false} ReplayKeepsWellFormed(vals: seq<CStr>, history: seq<CStr>)
    requires WellFormed(vals)
    ensures WellFormed(Replay(vals, history))
  {
    if history != [] {
      ReplayKeepsWellFormed(vals, history[..|history| - 1]);
      InsertKeepsWellFormed(Replay(vals, history[..|history| - 1]), history[|history| - 1]);
    }
  }

  // ---------- The table is never full ----------

  lemma {:induction false} Pigeonhole(keys: seq<nat>, lo: nat, hi: nat)
    requires lo <= hi
    requires forall i :: 0 <= i < |keys| ==> lo <= keys[i] < hi
    requires forall i, j :: 0 <= i < j < |keys| ==> keys[i] != keys[j]
    ensures |keys| <= hi - lo
    decreases hi
  {
    if keys != [] {
      assert lo <= keys[0] < hi;
      if i :| 0 <= i < |keys| && keys[i] == hi - 1 {
        Pigeonhole(keys[..i] + keys[i + 1..], lo, hi - 1);
      } else {
        Pigeonhole(keys, lo, hi - 1);
      }
    }
  }

  /** Keys 0 and 1 are never stored, so at most 9998 values ever are. */
  lemma CountBound(vals: seq<CStr>)
    requires WellFormed(vals)
    ensures |vals| <= TABLE_SIZE - 2
  {
    var keys := seq(|vals|, i requires 0 <= i < |vals| => Key(vals[i]));
    Pigeonhole(keys, 2, KEY_RANGE);
  }

  /** No history makes the "table is full" branch reachable. */
  lemma NeverFull(history: seq<CStr>)
    ensures |Replay([], history)| <= TABLE_SIZE - 2
  {
    ReplayKeepsWellFormed([], history);
    CountBound(Replay([], history));
  }

  // ---------- First value wins, over every history ----------

  /** Position i of the history is the first storable value with key k. */
  ghost predicate FirstWithKey(history: seq<CStr>, k: nat, i: nat) {
    && i < |history| && Storable(history[i]) && Key(history[i]) == k
    && forall j :: 0 <= j < i ==> !(Storable(history[j]) && Key(history[j]) == k)
  }

  /** Slot k holds the first storable value with key k, and nothing if the history has none. */
  lemma {:induction false} FirstWins(history: seq<CStr>, k: nat)
    ensures Slot(Replay([], history), k).Some? <==> exists i: nat :: FirstWithKey(history, k, i)
    ensures forall i: nat :: FirstWithKey(history, k, i) ==> Slot(Replay([], history), k) == Some(history[i])
  {
    if history != [] {
      var n := |history| - 1;
      var h, v := history[..n], history[n];
      var before := Replay([], h);
      FirstWins(h, k);
      NeverFull(h);
      SlotAfterInsert(before, v, k);
      FirstInPrefix(history, k);
    }
  }

  /** A longer history has the first position of its prefix, or else possibly its last position. */
  lemma FirstInPrefix(history: seq<CStr>, k: nat)
    requires history != []
    ensures var n := |history| - 1;
      && (forall i: nat :: i < n ==> (FirstWithKey(history, k, i) <==> FirstWithKey(history[..n], k, i)))
      && (FirstWithKey(history, k, n) <==>
          Storable(history[n]) && Key(history[n]) == k && !exists i: nat :: FirstWithKey(history[..n], k, i))
  {
    var n := |history| - 1;
    var h := history[..n];
    forall j: nat | j < n && Storable(h[j]) && Key(h[j]) == k
      ensures exists i: nat :: FirstWithKey(h, k, i)
    {
      NoFirstMeansNone(h, k, j);
    }
  }

  /** Where some position qualifies, there is a first one. */
  lemma {:induction false} NoFirstMeansNone(history: seq<CStr>, k: nat, j: nat)
    requires j < |history| && Storable(history[j]) && Key(history[j]) == k
    ensures exists i: nat :: i <= j && FirstWithKey(history, k, i)
    decreases j
  {
    if !FirstWithKey(history, k, j) {
      var i :| 0 <= i < j && Storable(history[i]) && Key(history[i]) == k;
      NoFirstMeansNone(history, k, i);
    }
  }

  /** The values that were the first storable ones with their keys, in insertion order. */
  ghost function Winners(history: seq<CStr>): seq<CStr> {
    if history == [] then []
    else
      var n := |history| - 1;
      Winners(history[..n]) + if FirstWithKey(history, Key(history[n]), n) then [history[n]] else []
  }

  /** The stored values are exactly the winners, in the order in which they were inserted. */
  lemma {:induction false} StoredAreWinners(history: seq<CStr>)
    ensures Replay([], history) == Winners(history)
  {
    if history != [] {
      var n := |history| - 1;
      StoredAreWinners(history[..n]);
      NeverFull(history[..n]);
      FirstWins(history[..n], Key(history[n]));
      FirstInPrefix(history, Key(history[n]));
    }
  }

  /** The value was the first storable one with its key. */
  ghost predicate WonItsKey(history: seq<CStr>, v: CStr) {
    exists i: nat :: FirstWithKey(history, Key(v), i) && history[i] == v
  }

  /** Searching by value finds the value itself exactly when it was the first with its key. */
  lemma SearchFindsFirst(history: seq<CStr>, v: CStr)
    ensures Slot(Replay([], history), Key(v)) == Some(v) <==> WonItsKey(history, v)
  {
    FirstWins(history, Key(v));
  }

  // ---------- Duplicate detection ----------

  ghost predicate Ascii(v: CStr) {
    forall i :: 0 <= i < |v| ==> 0 < v[i]
  }

  lemma {:induction false} SumBounds(s: CStr)
    requires Ascii(s)
    ensures |s| <= Sum(s) <= 127 * |s|
  {
    if s != [] {
      SumBounds(s[..|s| - 1]);
    }
  }

  function Reduced(sum: nat): nat {
    sum % KEY_RANGE
  }

  lemma KeyOfShortAscii(s: CStr)
    requires s != [] && Ascii(s) && |s| <= MAX_VALUE_LEN
    ensures Sum(s[1..]) >= 0 && Key(s) == Reduced(Sum(s[1..]))
  {
    SumBounds(s[1..]);
    assert Sum(s[1..]) % UINT_RANGE == Sum(s[1..]);
  }

  lemma ReducedSum(a: nat, b: nat)
    ensures Reduced(a + b) == (Reduced(a) + b) % KEY_RANGE
  {
  }

  lemma ExtensionParts(w: CStr, t: CStr)
    requires w != [] && Ascii(w) && Ascii(t)
    ensures Ascii(w + t) && (w + t)[1..] == w[1..] + t
  {
  }

  /** Extending a value adds the sum of the new characters to its key, modulo 10000. */
  lemma KeyOfExtension(w: CStr, t: CStr)
    requires w != [] && Ascii(w) && Ascii(t) && |w + t| <= MAX_VALUE_LEN
    ensures Key(w + t) == (Key(w) + Sum(t)) % KEY_RANGE
  {
    hide *;
    ExtensionParts(w, t);
    SumAppend(w[1..], t);
    SumBounds(t);
    KeyOfShortAscii(w);
    KeyOfShortAscii(w + t);
    ReducedSum(Sum(w[1..]), Sum(t));
  }

  /** Whenever the new value is at most 78 characters longer, code 0 from an occupied slot means equal. */
  lemma DuplicateCodeIsExact(vals: seq<CStr>, v: CStr)
    requires WellFormed(vals) && Ascii(v) && Storable(v)
    requires Slot(vals, Key(v)).Some? && Ascii(Slot(vals, Key(v)).value)
    requires |v| <= |Slot(vals, Key(v)).value| + 78
    ensures InsertCode(vals, v) == (if Slot(vals, Key(v)).value == v then 0 else 2)
    ensures Insert(vals, v) == vals
  {
    CountBound(vals);
    SlotMeaning(vals, Key(v));
    var w := Slot(vals, Key(v)).value;
    StrncmpIsPrefix(w, v);
    if w <= v {
      var t := v[|w|..];
      assert v == w + t;
      KeyOfExtension(w, t);
      SumBounds(t);
      assert Sum(t) <= 127 * 78 < KEY_RANGE;
    }
  }

  /** Every sum that `n` ASCII characters could have is the sum of some `n` characters. */
  lemma {:induction false} TailWithSum(n: nat, total: nat) returns (t: CStr)
    requires n <= total <= 127 * n
    ensures |t| == n && Ascii(t) && Sum(t) == total
  {
    if n == 0 {
      t := [];
    } else {
      var c: CChar := if total - (n - 1) <= 127 then total - (n - 1) else 127;
      var rest := TailWithSum(n - 1, total - c);
      t := rest + [c];
    }
  }

  /** A pair that shows how duplicate detection fares with a value `gap` characters longer than the stored one. */
  predicate GapPair(w: CStr, v: CStr, gap: nat) {
    Storable(w) && Storable(v) && |v| == |w| + gap && Key(v) == Key(w)
  }

  /** ASCII values that are `gap` characters longer than the stored one are never mistaken for it. */
  ghost predicate GapIsSafe(gap: nat) {
    forall w: CStr, v: CStr :: Ascii(w) && Ascii(v) && GapPair(w, v, gap) ==> (InsertCode([w], v) == 0 <==> w == v)
  }

  /** The same for values of any characters, negative ones included. */
  ghost predicate GapIsSafeForAll(gap: nat) {
    forall w: CStr, v: CStr :: GapPair(w, v, gap) ==> (InsertCode([w], v) == 0 <==> w == v)
  }

  /** In an occupied slot, code 0 means that the stored value is a prefix of the new one; a shorter value gets 2. */
  lemma OccupiedCode(vals: seq<CStr>, v: CStr)
    requires WellFormed(vals) && Storable(v) && Slot(vals, Key(v)).Some?
    ensures InsertCode(vals, v) == if Slot(vals, Key(v)).value <= v then 0 else 2
    ensures |v| < |Slot(vals, Key(v)).value| ==> InsertCode(vals, v) == 2
  {
    CountBound(vals);
    StrncmpIsPrefix(Slot(vals, Key(v)).value, v);
  }

  /** Value w of the table has the key of v. */
  ghost predicate HasItsKey(vals: seq<CStr>, v: CStr, w: CStr) {
    w in vals && Key(w) == Key(v)
  }

  /**
    What the return code says: 1 that the value was rejected; 2 that another value holds its key and is
    no prefix of it; 0 that it is stored now, or that a prefix of it already was.
   */
  lemma CodeMeaning(vals: seq<CStr>, v: CStr)
    requires WellFormed(vals)
    ensures Insert(vals, v) == vals || Insert(vals, v) == vals + [v]
    ensures InsertCode(vals, v) == 1 <==> !Storable(v)
    ensures InsertCode(vals, v) == 2 <==> Storable(v) && exists w :: HasItsKey(vals, v, w) && !(w <= v)
    ensures InsertCode(vals, v) == 0 <==>
              Insert(vals, v) != vals || (Storable(v) && exists w :: HasItsKey(vals, v, w) && w <= v)
    ensures Storable(v) && (forall w :: !HasItsKey(vals, v, w)) ==> Insert(vals, v) == vals + [v]
  {
    CountBound(vals);
    SlotMeaning(vals, Key(v));
    if Slot(vals, Key(v)).Some? {
      var w := Slot(vals, Key(v)).value;
      StrncmpIsPrefix(w, v);
      assert HasItsKey(vals, v, w);
      forall u | HasItsKey(vals, v, u) ensures u == w {
        OneWithKey(vals, u, w);
      }
    }
  }

  lemma OneWithKey(vals: seq<CStr>, u: CStr, w: CStr)
    requires Distinct(vals) && u in vals && w in vals && Key(u) == Key(w)
    ensures u == w
  {
    var i :| 0 <= i < |vals| && vals[i] == u;
    var j :| 0 <= j < |vals| && vals[j] == w;
    assert i < j || j < i || i == j;
  }

  lemma PairCode(w: CStr, v: CStr, gap: nat)
    requires GapPair(w, v, gap)
    ensures InsertCode([w], v) == if w <= v then 0 else 2
  {
    SlotOf([w], 0);
    OccupiedCode([w], v);
  }

  lemma StoredAB(t: CStr)
    requires |t| <= 510 && Key([97, 98] + t) == 98
    ensures GapPair([97, 98], [97, 98] + t, |t|)
  {
    KeyOfAB();
  }

  lemma KeyOfAB()
    ensures Key([97, 98]) == 98
  {
    var w: CStr := [97, 98];
    assert w[1..] == [98] && Sum([98]) == 98;
  }

  /** Among ASCII values, detection is exact for a gap if and only if it is at most 78, or longer than any value. */
  lemma DuplicateDetectionExactIff(gap: nat)
    ensures GapIsSafe(gap) <==> gap <= 78 || gap > 510
  {
    if gap <= 78 {
      forall w: CStr, v: CStr | Ascii(w) && Ascii(v) && GapPair(w, v, gap)
        ensures InsertCode([w], v) == 0 <==> w == v
      {
        SlotOf([w], 0);
        DuplicateCodeIsExact([w], v);
      }
    } else if gap <= 510 {
      var t := TailWithSum(gap, KEY_RANGE);
      var w: CStr := [97, 98];
      KeyOfAB();
      KeyOfExtension(w, t);
      StoredAB(t);
      PairCode(w, w + t, gap);
      assert InsertCode([w], w + t) == 0 && w != w + t;
    }
  }

  lemma AddKeepsOrWraps(a: int, c: int)
    requires -128 <= c < 128
    ensures var r := a % UINT_RANGE;
      (a + c) % UINT_RANGE in {r + c, r + c + UINT_RANGE, r + c - UINT_RANGE}
  {
  }

  lemma SmallAddChangesKey(a: int, c: int)
    requires -128 <= c < 128 && c != 0
    ensures ((a + c) % UINT_RANGE) % KEY_RANGE != (a % UINT_RANGE) % KEY_RANGE
  {
    AddKeepsOrWraps(a, c);
  }

  /** One more character always changes the key, even where the unsigned sum wraps. */
  lemma OneMoreChangesKey(w: CStr, c: CChar)
    requires w != []
    ensures Key(w + [c]) != Key(w)
  {
    assert (w + [c])[1..] == w[1..] + [c];
    SumAppend(w[1..], [c]);
    assert [c][..0] == [];
    SmallAddChangesKey(Sum(w[1..]), c);
  }

  /** Two or more characters can cancel out. */
  lemma {:induction false} BalancedTail(n: nat) returns (t: CStr)
    requires n >= 2
    ensures |t| == n && Sum(t) == 0
  {
    if n == 2 {
      t := [1, -1];
      assert t[..1] == [1] && [1][..0] == [];
    } else if n == 3 {
      t := [1, 1, -2];
      assert t[..2] == [1, 1] && [1, 1][..1] == [1] && [1][..0] == [];
    } else {
      var front := BalancedTail(n - 2);
      var two := BalancedTail(2);
      SumAppend(front, two);
      t := front + two;
    }
  }

  /** Over all values, detection is exact for a gap if and only if it is at most 1, or longer than any value. */
  lemma DuplicateDetectionExactForAllIff(gap: nat)
    ensures GapIsSafeForAll(gap) <==> gap <= 1 || gap > 510
  {
    if gap <= 1 {
      forall w: CStr, v: CStr | GapPair(w, v, gap)
        ensures InsertCode([w], v) == 0 <==> w == v
      {
        PairCode(w, v, gap);
        if gap == 1 && w <= v {
          var c := v[|w|];
          assert v == w + [c];
          OneMoreChangesKey(w, c);
        }
      }
    } else if gap <= 510 {
      var t := BalancedTail(gap);
      var w: CStr := [97, 98];
      KeyOfAB();
      assert (w + t)[1..] == w[1..] + t;
      SumAppend(w[1..], t);
      StoredAB(t);
      PairCode(w, w + t, gap);
      assert InsertCode([w], w + t) == 0 && w != w + t;
    }
  }
}
