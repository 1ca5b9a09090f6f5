/**
 * The per-document TOC state store: an insertion-ordered map from a file's
 * normalised path to the state saved for it, capped at 1000 entries with the
 * oldest entry evicted first, and a cleanup that drops entries whose file is
 * gone or which are older than 30 days. Paths arrive already normalised; the
 * clock and the file-existence test are parameters.
 */
module StateManagement {
  import opened Wrappers
  import opened Js
  import opened Text

  const MaxEntries := 1000

  /** Thirty days, in milliseconds. */
  const MaxAge := 30 * 24 * 60 * 60 * 1000

  /** The store's contents: the keys in insertion order and the value saved for each. */
  datatype Store = Store(order: seq<string>, entries: map<string, Json>)

  /** The keys listed once each, and exactly the keys that have an entry. */
  predicate WellFormed(s: Store) {
    Distinct(s.order) && (forall k | k in s.entries :: k in s.order) && (forall k | k in s.order :: k in s.entries)
  }

  lemma WellFormedSize(s: Store)
    requires WellFormed(s)
    ensures |s.entries| == |s.order|
  {
    DistinctCardinality(s.order);
    assert s.entries.Keys == set k | k in s.order;
  }

  function Empty(): (s: Store)
    ensures WellFormed(s) && s.entries == map[]
  {
    Store([], map[])
  }

  // ---------------------------------------------------------------------------
  // Object spread
  // ---------------------------------------------------------------------------

  function DigitChar(d: nat): char
    requires d < 10
  {
    ('0' as int + d) as char
  }

  /** The decimal spelling of an array index, as a property name. */
  function IndexName(n: nat): (r: string)
    ensures |r| >= 1
    decreases n
  {
    if n < 10 then [DigitChar(n)] else IndexName(n / 10) + [DigitChar(n % 10)]
  }

  /** The index-named properties of an array-like value. */
  function Indexed(xs: seq<Json>): map<string, Json>
    decreases |xs|
  {
    if xs == [] then map[] else Indexed(xs[..|xs| - 1])[IndexName(|xs| - 1) := xs[|xs| - 1]]
  }

  /** A string's characters, each as a one-character string. */
  function Characters(s: string): (r: seq<Json>)
    ensures |r| == |s|
  {
    if s == [] then [] else [Str([s[0]])] + Characters(s[1..])
  }

  /** The own properties `{...v}` copies: an object's fields, the elements of an array or the
      characters of a string by index, and nothing for the other primitives. */
  function Spread(v: Json): map<string, Json> {
    match v
    case Obj(m) => m
    case Arr(items) => Indexed(items)
    case Str(s) => Indexed(Characters(s))
    case _ => map[]
  }

  /** `{...tocState, lastModified: now}`. */
  function Stamp(tocState: Json, now: int): (v: Json)
    ensures v.Obj? && Prop(v, "lastModified") == Num(now)
    ensures forall k :: k != "lastModified" ==> (k in v.fields <==> k in Spread(tocState))
    ensures forall k :: k != "lastModified" && k in Spread(tocState) ==> v.fields[k] == Spread(tocState)[k]
  {
    Obj(Spread(tocState)["lastModified" := Num(now)])
  }

  // ---------------------------------------------------------------------------
  // Operations
  // ---------------------------------------------------------------------------

  /** `getTocState`: the saved value, or an empty object when there is none or it is falsy. */
  function Lookup(s: Store, key: string): Json {
    if key in s.entries && Truthy(s.entries[key]) then s.entries[key] else Obj(map[])
  }

  /** Whether storing under `key` first evicts the oldest entry: the store is full and `key` is new. */
  predicate Evicts(s: Store, key: string) {
    |s.entries| >= MaxEntries && key !in s.entries
  }

  /** `setTocState`: evict the oldest entry if full and the key is new, then store the stamped state.
      A key already present keeps its place in the order. */
  function Put(s: Store, key: string, tocState: Json, now: int): Store
    requires WellFormed(s)
  {
    var t := if Evicts(s, key) && s.order != [] then Store(s.order[1..], s.entries - {s.order[0]}) else s;
    var v := Stamp(tocState, now);
    if key in t.entries then Store(t.order, t.entries[key := v]) else Store(t.order + [key], t.entries[key := v])
  }

  /** The number `now - v` subtracts, for the values JavaScript coerces to an integer: a number,
      `null`, a blank string and the empty array (0) and a boolean (0 or 1). `None` stands for `NaN`,
      which every other value gives here. */
  function ToNumber(v: Json): Option<int> {
    match v
    case Num(n) => Some(n)
    case Null => Some(0)
    case Bool(b) => Some(if b then 1 else 0)
    case Str(s) => if Trim(s) == "" then Some(0) else None
    case Arr(items) => if items == [] then Some(0) else None
    case _ => None
  }

  /** The test `cleanup` applies to each entry: keep it while its file exists and it is at most
      30 days old; a `lastModified` that is `NaN` is never too old, since `NaN > maxAge` is false. */
  predicate Keep(key: string, value: Json, exists_: string -> bool, now: int) {
    var t := ToNumber(Prop(value, "lastModified"));
    exists_(key) && !(t.Some? && now - t.value > MaxAge)
  }

  /** An entry whose `lastModified` coerces to the epoch (`null`, `false`, `true`, `""`, `[]`) is
      dropped by any cleanup run more than 30 days after it. */
  lemma KeepCoercedStamp(key: string, value: Json, exists_: string -> bool, now: int)
    requires now > MaxAge + 1
    requires Prop(value, "lastModified") in [Null, Bool(false), Bool(true), Str(""), Arr([])]
    ensures !Keep(key, value, exists_, now)
  {
  }

  /** An entry with no usable stamp (`undefined`, an object, a string that is not blank) gets `NaN`, and is kept
      while its file exists however late the cleanup runs. */
  lemma KeepUnstamped(key: string, value: Json, exists_: string -> bool, now: int)
    requires var t := Prop(value, "lastModified"); t.Undefined? || t.Obj? || (t.Str? && Trim(t.s) != "")
    ensures Keep(key, value, exists_, now) <==> exists_(key)
  {
  }

  function KeptKeys(order: seq<string>, entries: map<string, Json>, exists_: string -> bool, now: int): (r: seq<string>)
    requires forall k :: k in order ==> k in entries
    ensures |r| <= |order|
  {
    if order == [] then []
    else
      var rest := KeptKeys(order[1..], entries, exists_, now);
      assert forall k :: k in order[1..] ==> k in order;
      if Keep(order[0], entries[order[0]], exists_, now) then [order[0]] + rest else rest
  }

  /** `cleanup`: the entries that pass `Keep`, in their original order. */
  function Cleaned(s: Store, exists_: string -> bool, now: int): Store
    requires WellFormed(s)
  {
    var kept := KeptKeys(s.order, s.entries, exists_, now);
    Store(kept, Restrict(s.entries, kept))
  }

  /** The kept keys are exactly the listed keys that pass `Keep`, each listed once if the input was. */
  lemma {:induction false} KeptKeysMembers(order: seq<string>, entries: map<string, Json>, exists_: string -> bool, now: int)
    requires forall k :: k in order ==> k in entries
    ensures var r := KeptKeys(order, entries, exists_, now);
      (forall k :: k in r <==> k in order && Keep(k, entries[k], exists_, now))
      && (Distinct(order) ==> Distinct(r))
  {
    if order != [] {
      assert forall k :: k in order[1..] ==> k in order;
      KeptKeysMembers(order[1..], entries, exists_, now);
      assert forall k :: k in order <==> k == order[0] || k in order[1..];
    }
  }

  /** The entries of `m` whose keys are listed in `ks`. */
  function Restrict(m: map<string, Json>, ks: seq<string>): map<string, Json> {
    map k | k in m && k in ks :: m[k]
  }

  // ---------------------------------------------------------------------------
  // Properties
  // ---------------------------------------------------------------------------

  /** A key never stored reads back as an empty object. */
  lemma LookupMissing(s: Store, key: string)
    requires key !in s.entries
    ensures Lookup(s, key) == Obj(map[])
  {
  }

  /** Storing keeps the store well formed. */
  lemma PutWellFormed(s: Store, key: string, tocState: Json, now: int)
    requires WellFormed(s)
    ensures WellFormed(Put(s, key, tocState, now))
  {
    if Evicts(s, key) && s.order != [] {
      var t := Store(s.order[1..], s.entries - {s.order[0]});
      forall k ensures k in t.entries <==> k in t.order {
        assert k in s.order[1..] <==> k in s.order && k != s.order[0];
      }
    }
  }

  /** After storing, the key reads back as the stamped state. */
  lemma PutThenLookup(s: Store, key: string, tocState: Json, now: int)
    requires WellFormed(s)
    ensures Lookup(Put(s, key, tocState, now), key) == Stamp(tocState, now)
  {
  }

  /** Storing never takes a store at or below the cap above it. */
  lemma PutBounded(s: Store, key: string, tocState: Json, now: int)
    requires WellFormed(s) && |s.entries| <= MaxEntries
    ensures |Put(s, key, tocState, now).entries| <= MaxEntries
  {
    WellFormedSize(s);
    if Evicts(s, key) {
      assert s.order[0] in s.entries;
      assert |s.entries - {s.order[0]}| == |s.entries| - 1;
    }
  }

  /** When the store is full and the key is new, exactly the oldest key goes, the new key comes
      last, and every surviving entry keeps its value. */
  lemma PutEvictsOldest(s: Store, key: string, tocState: Json, now: int)
    requires WellFormed(s) && Evicts(s, key)
    ensures var r := Put(s, key, tocState, now);
      s.order != [] && r.order == s.order[1..] + [key]
      && r.entries.Keys == s.entries.Keys - {s.order[0]} + {key}
      && (forall k :: k in r.entries && k != key ==> r.entries[k] == s.entries[k])
  {
    WellFormedSize(s);
  }

  /** Otherwise nothing is evicted: the keys only gain `key`, and every other entry is kept as it was. */
  lemma PutWithoutEviction(s: Store, key: string, tocState: Json, now: int)
    requires WellFormed(s) && !Evicts(s, key)
    ensures var r := Put(s, key, tocState, now);
      r.entries.Keys == s.entries.Keys + {key}
      && (forall k :: k in s.entries && k != key ==> r.entries[k] == s.entries[k])
      && r.order == if key in s.entries then s.order else s.order + [key]
  {
  }

  /** Updating a stored key keeps its position and every other entry. */
  lemma PutExistingKeepsPosition(s: Store, key: string, tocState: Json, now: int, i: nat)
    requires WellFormed(s) && i < |s.order| && s.order[i] == key
    ensures var r := Put(s, key, tocState, now);
      r.order == s.order && r.order[i] == key
      && forall k :: k in s.entries && k != key ==> r.entries[k] == s.entries[k]
  {
  }

  /** Cleanup keeps the store well formed, keeps exactly the entries that pass `Keep`, unchanged. */
  lemma CleanedValid(s: Store, exists_: string -> bool, now: int)
    requires WellFormed(s) && |s.entries| <= MaxEntries
    ensures WellFormed(Cleaned(s, exists_, now)) && |Cleaned(s, exists_, now).entries| <= MaxEntries
  {
    CleanupExact(s, exists_, now);
  }

  lemma CleanupExact(s: Store, exists_: string -> bool, now: int)
    requires WellFormed(s)
    ensures var r := Cleaned(s, exists_, now);
      WellFormed(r)
      && (forall k :: k in r.entries <==> k in s.entries && Keep(k, s.entries[k], exists_, now))
      && (forall k :: k in r.entries ==> r.entries[k] == s.entries[k])
      && |r.entries| <= |s.entries|
  {
    var r := Cleaned(s, exists_, now);
    KeptKeysMembers(s.order, s.entries, exists_, now);
    WellFormedSize(s);
    assert WellFormed(r);
    WellFormedSize(r);
  }

  /** A second cleanup at the same moment removes nothing more. */
  lemma CleanupIdempotent(s: Store, exists_: string -> bool, now: int)
    requires WellFormed(s)
    ensures var r := Cleaned(s, exists_, now);
      WellFormed(r) && Cleaned(r, exists_, now) == r
  {
    var r := Cleaned(s, exists_, now);
    CleanupExact(s, exists_, now);
    KeptAll(r.order, r.entries, exists_, now);
  }

  lemma {:induction false} KeptAll(order: seq<string>, entries: map<string, Json>, exists_: string -> bool, now: int)
    requires forall k :: k in order ==> k in entries && Keep(k, entries[k], exists_, now)
    ensures KeptKeys(order, entries, exists_, now) == order
  {
    if order != [] {
      assert forall k :: k in order[1..] ==> k in order;
      KeptAll(order[1..], entries, exists_, now);
    }
  }

  /** Cleanup keeps the order of the surviving keys: it is the subsequence of those that pass. */
  lemma {:induction false} KeptKeysAppend(a: seq<string>, b: seq<string>, entries: map<string, Json>, exists_: string -> bool, now: int)
    requires forall k :: k in a + b ==> k in entries
    ensures KeptKeys(a + b, entries, exists_, now) == KeptKeys(a, entries, exists_, now) + KeptKeys(b, entries, exists_, now)
  {
    if a == [] {
      assert a + b == b;
    } else {
      assert (a + b)[1..] == a[1..] + b;
      assert forall k :: k in a[1..] + b ==> k in a + b;
      KeptKeysAppend(a[1..], b, entries, exists_, now);
    }
  }

  lemma RestrictAll(m: map<string, Json>, ks: seq<string>)
    requires forall k | k in m :: k in ks
    ensures Restrict(m, ks) == m
  {
  }

  lemma RestrictDrop(m: map<string, Json>, a: seq<string>, key: string, b: seq<string>)
    requires key !in a && key !in b
    ensures Restrict(m, a + ([key] + b)) - {key} == Restrict(m, a + b)
  {
    var l, r := Restrict(m, a + ([key] + b)) - {key}, Restrict(m, a + b);
    forall k ensures k in l <==> k in r {
      assert k in a + ([key] + b) <==> k in a || k == key || k in b;
      assert k in a + b <==> k in a || k in b;
    }
  }

  /** Deciding one more key extends the kept keys by that key, or by nothing. */
  lemma KeptKeysSnoc(keys: seq<string>, entries: map<string, Json>, exists_: string -> bool, now: int, i: nat)
    requires i < |keys| && forall k :: k in keys ==> k in entries
    ensures KeptKeys(keys[..i + 1], entries, exists_, now)
         == KeptKeys(keys[..i], entries, exists_, now) + (if Keep(keys[i], entries[keys[i]], exists_, now) then [keys[i]] else [])
  {
    assert keys[..i + 1] == keys[..i] + [keys[i]];
    KeptKeysAppend(keys[..i], [keys[i]], entries, exists_, now);
    assert [keys[i]][1..] == [];
  }

  /** The key being decided is listed neither among the kept keys before it nor after it. */
  lemma CleanupStepKey(keys: seq<string>, entries: map<string, Json>, exists_: string -> bool, now: int, i: nat)
    requires WellFormed(Store(keys, entries)) && i < |keys|
    ensures keys[i] !in KeptKeys(keys[..i], entries, exists_, now) && keys[i] !in keys[i + 1..]
    ensures keys[i..] == [keys[i]] + keys[i + 1..]
  {
    assert forall j :: 0 <= j < |keys| && j != i ==> keys[j] != keys[i];
    assert keys[i] !in keys[..i];
    KeptKeysMembers(keys[..i], entries, exists_, now);
  }

  /** The store part-way through cleanup: the first `i` keys decided, the rest untouched. */
  function Partial(s: Store, exists_: string -> bool, now: int, i: nat): Store
    requires WellFormed(s) && i <= |s.order|
  {
    var order := KeptKeys(s.order[..i], s.entries, exists_, now) + s.order[i..];
    Store(order, Restrict(s.entries, order))
  }

  lemma PartialStart(s: Store, exists_: string -> bool, now: int)
    requires WellFormed(s)
    ensures Partial(s, exists_, now, 0) == s
  {
    assert s.order[..0] == [] && s.order[0..] == s.order;
    RestrictAll(s.entries, s.order);
  }

  lemma PartialEnd(s: Store, exists_: string -> bool, now: int)
    requires WellFormed(s)
    ensures Partial(s, exists_, now, |s.order|) == Cleaned(s, exists_, now)
  {
    assert s.order[..|s.order|] == s.order && s.order[|s.order|..] == [];
  }

  /** One step of the cleanup loop, from the store `Store(order, state)` reached after `i` keys:
      the key at `i` sits at `pos`, right after the keys kept so far, with its original value, and
      it either stays or is removed from both the order and the entries. */
  lemma PartialStep(s: Store, exists_: string -> bool, now: int, i: nat,
                    order: seq<string>, state: map<string, Json>, pos: nat)
    requires WellFormed(s) && i < |s.order|
    requires Store(order, state) == Partial(s, exists_, now, i)
    requires pos + (|s.order| - i) == |order|
    ensures pos < |order| && order[pos] == s.order[i]
    ensures s.order[i] in state && state[s.order[i]] == s.entries[s.order[i]]
    ensures Keep(s.order[i], s.entries[s.order[i]], exists_, now) ==>
      Store(order, state) == Partial(s, exists_, now, i + 1)
    ensures !Keep(s.order[i], s.entries[s.order[i]], exists_, now) ==>
      Store(order[..pos] + order[pos + 1..], state - {s.order[i]}) == Partial(s, exists_, now, i + 1)
  {
    var keys := s.order;
    var kept := KeptKeys(keys[..i], s.entries, exists_, now);
    SliceCons(keys, i);
    PositionOf(kept, keys[i], keys[i + 1..]);
    if Keep(keys[i], s.entries[keys[i]], exists_, now) {
      PartialKeep(s, exists_, now, i);
    } else {
      PartialDrop(s, exists_, now, i);
    }
  }

  lemma SliceCons(keys: seq<string>, i: nat)
    requires i < |keys|
    ensures keys[i..] == [keys[i]] + keys[i + 1..]
  {
  }

  /** Where a key sits between the keys before it and those after it. */
  lemma PositionOf(before: seq<string>, key: string, after: seq<string>)
    ensures var all := before + ([key] + after);
      |before| < |all| && all[|before|] == key && key in all
      && all[..|before|] == before && all[|before| + 1..] == after
  {
  }

  lemma SnocAssoc(a: seq<string>, key: string, b: seq<string>)
    ensures (a + [key]) + b == a + ([key] + b)
  {
  }

  lemma PartialKeep(s: Store, exists_: string -> bool, now: int, i: nat)
    requires WellFormed(s) && i < |s.order| && Keep(s.order[i], s.entries[s.order[i]], exists_, now)
    ensures Partial(s, exists_, now, i + 1) == Partial(s, exists_, now, i)
  {
    var keys := s.order;
    var kept := KeptKeys(keys[..i], s.entries, exists_, now);
    KeptKeysSnoc(keys, s.entries, exists_, now, i);
    SliceCons(keys, i);
    SnocAssoc(kept, keys[i], keys[i + 1..]);
  }

  lemma PartialDrop(s: Store, exists_: string -> bool, now: int, i: nat)
    requires WellFormed(s) && i < |s.order| && !Keep(s.order[i], s.entries[s.order[i]], exists_, now)
    ensures Partial(s, exists_, now, i + 1)
         == Store(KeptKeys(s.order[..i], s.entries, exists_, now) + s.order[i + 1..],
                  Partial(s, exists_, now, i).entries - {s.order[i]})
  {
    var keys := s.order;
    var kept := KeptKeys(keys[..i], s.entries, exists_, now);
    KeptKeysSnoc(keys, s.entries, exists_, now, i);
    assert kept + [] == kept;
    CleanupStepKey(keys, s.entries, exists_, now, i);
    RestrictDrop(s.entries, kept, keys[i], keys[i + 1..]);
  }

  /** The cleanup loop: walks the keys in insertion order and deletes each entry that is not kept,
      removing it from the order at the position it holds. */
  method SweepEntries(keys: seq<string>, entries: map<string, Json>, exists_: string -> bool, now: int)
    returns (nextOrder: seq<string>, nextState: map<string, Json>)
    requires WellFormed(Store(keys, entries))
    ensures Store(nextOrder, nextState) == Cleaned(Store(keys, entries), exists_, now)
  {
    ghost var s := Store(keys, entries);
    nextOrder, nextState := keys, entries;
    PartialStart(s, exists_, now);
    var i, pos := 0, 0;
    while i < |keys|
      invariant 0 <= i <= |keys|
      invariant Store(nextOrder, nextState) == Partial(s, exists_, now, i)
      invariant pos + (|keys| - i) == |nextOrder|
    {
      var key := keys[i];
      PartialStep(s, exists_, now, i, nextOrder, nextState, pos);
      if !Keep(key, nextState[key], exists_, now) {
        nextState := nextState - {key};
        nextOrder := nextOrder[..pos] + nextOrder[pos + 1..];
      } else {
        pos := pos + 1;
      }
      i := i + 1;
    }
    PartialEnd(s, exists_, now);
  }

  // ---------------------------------------------------------------------------
  // The store object
  // ---------------------------------------------------------------------------

  /** `StateManager`, minus loading from and saving to disk; `saveScheduled` stands for its pending save timer. */
  class StateManager {
    var order: seq<string>
    var state: map<string, Json>
    var saveScheduled: bool

    function Contents(): Store
      reads this
    {
      Store(order, state)
    }

    predicate Valid()
      reads this
    {
      WellFormed(Contents()) && |state| <= MaxEntries
    }

    constructor ()
      ensures Valid() && Contents() == Empty() && !saveScheduled
    {
      order := [];
      state := map[];
      saveScheduled := false;
    }

    method GetTocState(key: string) returns (v: Json)
      ensures v == Lookup(Contents(), key)
      ensures Truthy(v)
    {
      if key in state && Truthy(state[key]) {
        v := state[key];
      } else {
        v := Obj(map[]);
      }
    }

    method SetTocState(key: string, tocState: Json, now: int)
      requires Valid()
      modifies this
      ensures Valid() && saveScheduled
      ensures Contents() == Put(old(Contents()), key, tocState, now)
    {
      PutBounded(Contents(), key, tocState, now);
      PutWellFormed(Contents(), key, tocState, now);
      WellFormedSize(Contents());
      if |state| >= MaxEntries && key !in state {
        var first := order[0];
        order := order[1..];
        state := state - {first};
      }
      var v := Stamp(tocState, now);
      if key !in state {
        order := order + [key];
      }
      state := state[key := v];
      saveScheduled := true;
    }

    method Cleanup(exists_: string -> bool, now: int)
      requires Valid()
      modifies this
      ensures Valid() && saveScheduled == old(saveScheduled)
      ensures Contents() == Cleaned(old(Contents()), exists_, now)
    {
      CleanedValid(Contents(), exists_, now);
      order, state := SweepEntries(order, state, exists_, now);
    }
  }
}
