/**
 * The member sequence of an insertion-ordered JSON object (jsoncons `ojson`)
 * and the value-level meaning of the operations that change it.
 *
 * An object is a sequence of `(key, value)` members kept in insertion order.
 * `Content` reads such a sequence as a key-to-value map with the first
 * occurrence of a key winning, which is how the object's lookups (`find`,
 * `at`, `operator[]`) see it.
 *
 * Where a merge with a position hint puts the new members is an assumed
 * rule (`EmplaceAt`, `AssignAt`): a new member goes just before the hint
 * and the hint moves past it. Only the content of a hinted merge is
 * related to the tests' expected documents, which agree with that rule
 * only if object `==` ignores member order.
 */
module OjsonMembers {

  /** One `(key, value)` member of an object. */
  datatype Member<V> = Member(key: string, value: V)

  /** The keys present in `ms`. */
  function KeySet<V>(ms: seq<Member<V>>): set<string>
  {
    if ms == [] then {} else {ms[0].key} + KeySet(ms[1..])
  }

  /** The keys of `ms` in member order. */
  function KeyOrder<V>(ms: seq<Member<V>>): (ks: seq<string>)
    ensures |ks| == |ms|
    ensures forall i :: 0 <= i < |ms| ==> ks[i] == ms[i].key
  {
    if ms == [] then [] else [ms[0].key] + KeyOrder(ms[1..])
  }

  /** No key occurs twice: the invariant of every insertion-ordered object. */
  predicate UniqueKeys<V>(ms: seq<Member<V>>)
  {
    forall i, j :: 0 <= i < j < |ms| ==> ms[i].key != ms[j].key
  }

  /** Position of the first member with `key`, or `|ms|` (the end iterator) when there is none. */
  function IndexOf<V>(ms: seq<Member<V>>, key: string): (i: nat)
    ensures i <= |ms|
    ensures i < |ms| ==> ms[i].key == key
    ensures forall j :: 0 <= j < i ==> ms[j].key != key
    ensures i < |ms| <==> key in KeySet(ms)
  {
    if ms == [] then 0
    else if ms[0].key == key then 0
    else 1 + IndexOf(ms[1..], key)
  }

  /** The key-to-value map that `ms` denotes; an earlier member shadows a later one with the same key. */
  function Content<V>(ms: seq<Member<V>>): (c: map<string, V>)
    ensures c.Keys == KeySet(ms)
  {
    if ms == [] then map[]
    else Content(ms[1..])[ms[0].key := ms[0].value]
  }

  // ---------------------------------------------------------------------
  // try_emplace / insert(first, last) / merge: existing keys win

  /** `try_emplace(key, value)`: append the member unless the key is already present. */
  function Emplace<V>(ms: seq<Member<V>>, key: string, value: V): (r: seq<Member<V>>)
    ensures KeySet(r) == KeySet(ms) + {key}
    ensures |r| == if key in KeySet(ms) then |ms| else |ms| + 1
    ensures r[..|ms|] == ms
  {
    if key in KeySet(ms) then ms
    else
      AppendContent(ms, Member(key, value));
      ms + [Member(key, value)]
  }

  /** `try_emplace` of every member of `src`, in `src`'s order. */
  function InsertAll<V>(ms: seq<Member<V>>, src: seq<Member<V>>): (r: seq<Member<V>>)
    ensures KeySet(r) == KeySet(ms) + KeySet(src)
    ensures |ms| <= |r| <= |ms| + |src| && r[..|ms|] == ms
    decreases |src|
  {
    if src == [] then ms
    else InsertAll(Emplace(ms, src[0].key, src[0].value), src[1..])
  }

  /** The members of `src` whose key is neither in `seen` nor earlier in `src`, in `src`'s order. */
  function Fresh<V>(src: seq<Member<V>>, seen: set<string>): (r: seq<Member<V>>)
    ensures KeySet(r) == KeySet(src) - seen
    ensures |r| <= |src|
    decreases |src|
  {
    if src == [] then []
    else if src[0].key in seen then Fresh(src[1..], seen)
    else [src[0]] + Fresh(src[1..], seen + {src[0].key})
  }

  /**
   * `try_emplace(hint, key, value)` as a merge with a position hint uses it:
   * a new member is placed just before position `hint` and the hint moves
   * past it; an existing key leaves both the members and the hint alone.
   */
  function EmplaceAt<V>(ms: seq<Member<V>>, hint: nat, key: string, value: V): (r: (seq<Member<V>>, nat))
    requires hint <= |ms|
    ensures hint <= r.1 <= |r.0| && |ms| <= |r.0|
    ensures KeySet(r.0) == KeySet(ms) + {key}
    ensures r.0[..hint] == ms[..hint]
  {
    if key in KeySet(ms) then (ms, hint)
    else
      ContentInsertNew(ms, hint, Member(key, value));
      (ms[..hint] + [Member(key, value)] + ms[hint..], hint + 1)
  }

  /** `merge(hint, source)`: `EmplaceAt` of every member of `src`, threading the hint. */
  function InsertAllAt<V>(ms: seq<Member<V>>, hint: nat, src: seq<Member<V>>): (r: seq<Member<V>>)
    requires hint <= |ms|
    ensures KeySet(r) == KeySet(ms) + KeySet(src)
    ensures |ms| <= |r| && r[..hint] == ms[..hint]
    decreases |src|
  {
    if src == [] then ms
    else
      var (ms', hint') := EmplaceAt(ms, hint, src[0].key, src[0].value);
      var r := InsertAllAt(ms', hint', src[1..]);
      assert r[..hint] == r[..hint'][..hint];
      r
  }

  // ---------------------------------------------------------------------
  // insert_or_assign / merge_or_update: the source wins

  /** `insert_or_assign(key, value)`: overwrite the value of an existing key in place, else append. */
  function Assign<V>(ms: seq<Member<V>>, key: string, value: V): (r: seq<Member<V>>)
    ensures KeySet(r) == KeySet(ms) + {key}
    ensures |r| == if key in KeySet(ms) then |ms| else |ms| + 1
  {
    var i := IndexOf(ms, key);
    if i < |ms| then
      ContentReplaceFirst(ms, key, value);
      ms[i := Member(key, value)]
    else
      AppendContent(ms, Member(key, value));
      ms + [Member(key, value)]
  }

  /** `merge_or_update(source)`: `Assign` of every member of `src`, in `src`'s order. */
  function AssignAll<V>(ms: seq<Member<V>>, src: seq<Member<V>>): (r: seq<Member<V>>)
    ensures KeySet(r) == KeySet(ms) + KeySet(src)
    decreases |src|
  {
    if src == [] then ms
    else AssignAll(Assign(ms, src[0].key, src[0].value), src[1..])
  }

  /** `insert_or_assign(hint, key, value)` as `merge_or_update(hint, source)` uses it. */
  function AssignAt<V>(ms: seq<Member<V>>, hint: nat, key: string, value: V): (r: (seq<Member<V>>, nat))
    requires hint <= |ms|
    ensures r.1 <= |r.0|
    ensures KeySet(r.0) == KeySet(ms) + {key}
  {
    var i := IndexOf(ms, key);
    if i < |ms| then
      ContentReplaceFirst(ms, key, value);
      (ms[i := Member(key, value)], hint)
    else
      ContentInsertNew(ms, hint, Member(key, value));
      (ms[..hint] + [Member(key, value)] + ms[hint..], hint + 1)
  }

  /** `merge_or_update(hint, source)`: `AssignAt` of every member of `src`, threading the hint. */
  function AssignAllAt<V>(ms: seq<Member<V>>, hint: nat, src: seq<Member<V>>): (r: seq<Member<V>>)
    requires hint <= |ms|
    ensures KeySet(r) == KeySet(ms) + KeySet(src)
    decreases |src|
  {
    if src == [] then ms
    else
      var (ms', hint') := AssignAt(ms, hint, src[0].key, src[0].value);
      AssignAllAt(ms', hint', src[1..])
  }

  /** `erase(first, last)` on positions: drop the members at `first .. last-1`. */
  function EraseRange<V>(ms: seq<Member<V>>, first: nat, last: nat): (r: seq<Member<V>>)
    requires first <= last <= |ms|
    ensures |r| == |ms| - (last - first)
    ensures forall i :: 0 <= i < first ==> r[i] == ms[i]
    ensures forall i :: first <= i < |r| ==> r[i] == ms[i + (last - first)]
  {
    ms[..first] + ms[last..]
  }

  /** The members of `ms` whose key is not in `doomed`, in order. */
  function Without<V>(ms: seq<Member<V>>, doomed: set<string>): (r: seq<Member<V>>)
    ensures KeySet(r) == KeySet(ms) - doomed
    ensures |r| <= |ms|
  {
    if ms == [] then []
    else if ms[0].key in doomed then Without(ms[1..], doomed)
    else [ms[0]] + Without(ms[1..], doomed)
  }

  // ---------------------------------------------------------------------
  // Facts about keys and content

  /** Every member's key is a key of the sequence. */
  lemma {:induction false} KeyAt<V>(ms: seq<Member<V>>, i: nat)
    requires i < |ms|
    ensures ms[i].key in KeySet(ms)
  {
    if i > 0 {
      KeyAt(ms[1..], i - 1);
    }
  }

  lemma UpdateOverUnion<K, V>(a: map<K, V>, b: map<K, V>, k: K, v: V)
    ensures (a + b)[k := v] == a + b[k := v]
  {
  }

  lemma UpdateTwice<K, V>(a: map<K, V>, k: K, v1: V, v2: V)
    ensures a[k := v1][k := v2] == a[k := v2]
  {
  }

  lemma UpdateBeforeUnion<K, V>(a: map<K, V>, b: map<K, V>, k: K, v: V)
    requires k !in b
    ensures a[k := v] + b == a + b[k := v]
  {
  }

  lemma UpdateUnderUnion<K, V>(a: map<K, V>, c: map<K, V>, k: K, v: V)
    ensures a + (map[k := v] + c) == a[k := v] + c
  {
  }

  lemma InsertBetween<K, V>(c: map<K, V>, a: map<K, V>, k: K, v: V)
    requires k !in a
    ensures c + (map[k := v] + a) == (c + a)[k := v]
  {
  }

  /** Reading a concatenation: a key of `x` shadows the same key in `y`. */
  lemma {:induction false} ContentConcat<V>(x: seq<Member<V>>, y: seq<Member<V>>)
    ensures Content(x + y) == Content(y) + Content(x)
    ensures KeySet(x + y) == KeySet(x) + KeySet(y)
  {
    if x == [] {
      assert x + y == y;
    } else {
      assert (x + y)[1..] == x[1..] + y;
      ContentConcat(x[1..], y);
      UpdateOverUnion(Content(y), Content(x[1..]), x[0].key, x[0].value);
    }
  }

  lemma SingleContent<V>(m: Member<V>)
    ensures Content([m]) == map[m.key := m.value]
    ensures KeySet([m]) == {m.key}
  {
    assert [m][1..] == [];
  }

  /** A key maps to the value of its first member. */
  lemma {:induction false} ContentFirst<V>(ms: seq<Member<V>>, key: string)
    requires key in KeySet(ms)
    ensures Content(ms)[key] == ms[IndexOf(ms, key)].value
  {
    if ms[0].key != key {
      ContentFirst(ms[1..], key);
    }
  }

  /** In an object, every member's key maps to that member's value. */
  lemma ContentAt<V>(ms: seq<Member<V>>, i: nat)
    requires UniqueKeys(ms) && i < |ms|
    ensures ms[i].key in Content(ms) && Content(ms)[ms[i].key] == ms[i].value
  {
    KeyAt(ms, i);
    ContentFirst(ms, ms[i].key);
  }

  /** A member placed after members that lack its key is bound, over whatever the members after it bind. */
  lemma ContentSplice<V>(a: seq<Member<V>>, m: Member<V>, c: seq<Member<V>>)
    requires m.key !in KeySet(a)
    ensures Content(a + [m] + c) == (Content(c) + Content(a))[m.key := m.value]
    ensures KeySet(a + [m] + c) == KeySet(a) + {m.key} + KeySet(c)
  {
    ContentConcat(a + [m], c);
    ContentConcat(a, [m]);
    SingleContent(m);
    InsertBetween(Content(c), Content(a), m.key, m.value);
  }

  /** Inserting a new key anywhere adds exactly that binding. */
  lemma ContentInsertNew<V>(ms: seq<Member<V>>, pos: nat, m: Member<V>)
    requires pos <= |ms| && m.key !in KeySet(ms)
    ensures Content(ms[..pos] + [m] + ms[pos..]) == Content(ms)[m.key := m.value]
    ensures KeySet(ms[..pos] + [m] + ms[pos..]) == KeySet(ms) + {m.key}
  {
    var a, c := ms[..pos], ms[pos..];
    assert a + c == ms;
    ContentConcat(a, c);
    assert Content(ms) == Content(c) + Content(a) && KeySet(ms) == KeySet(a) + KeySet(c);
    assert m.key !in KeySet(a);
    ContentSplice(a, m, c);
  }

  /** Replacing the first member of a key rebinds exactly that key. */
  lemma ContentReplaceFirst<V>(ms: seq<Member<V>>, key: string, value: V)
    requires IndexOf(ms, key) < |ms|
    ensures Content(ms[IndexOf(ms, key) := Member(key, value)]) == Content(ms)[key := value]
    ensures KeySet(ms[IndexOf(ms, key) := Member(key, value)]) == KeySet(ms)
  {
    var i := IndexOf(ms, key);
    var m := Member(key, value);
    var a, c := ms[..i], ms[i + 1..];
    assert key !in KeySet(a) by {
      assert forall t :: 0 <= t < |a| ==> a[t] == ms[t];
      assert IndexOf(a, key) == |a|;
    }
    assert ms[i := m] == a + [m] + c;
    assert ms == a + [ms[i]] + c;
    ContentSplice(a, m, c);
    ContentSplice(a, ms[i], c);
    UpdateTwice(Content(c) + Content(a), key, ms[i].value, value);
  }

  /** The element at position `t` of `ms` with `m` inserted at `pos`. */
  lemma InsertedAt<V>(ms: seq<Member<V>>, pos: nat, m: Member<V>, t: nat)
    requires pos <= |ms| && t <= |ms|
    ensures (ms[..pos] + [m] + ms[pos..])[t] == if t < pos then ms[t] else if t == pos then m else ms[t - 1]
  {
  }

  lemma InsertKeepsUnique<V>(ms: seq<Member<V>>, pos: nat, m: Member<V>)
    requires UniqueKeys(ms) && pos <= |ms| && m.key !in KeySet(ms)
    ensures UniqueKeys(ms[..pos] + [m] + ms[pos..])
  {
    var r := ms[..pos] + [m] + ms[pos..];
    forall i, j | 0 <= i < j < |r|
      ensures r[i].key != r[j].key
    {
      InsertedAt(ms, pos, m, i);
      InsertedAt(ms, pos, m, j);
      if i < pos && j != pos {
      } else if i < pos {
        KeyAt(ms, i);
      } else if i == pos {
        KeyAt(ms, j - 1);
      }
    }
  }

  /** An object has exactly one member per key. */
  lemma {:induction false} UniqueKeysCount<V>(ms: seq<Member<V>>)
    ensures UniqueKeys(ms) ==> |KeySet(ms)| == |ms|
    decreases |ms|
  {
    if ms != [] && UniqueKeys(ms) {
      TailUnique(ms);
      UniqueKeysCount(ms[1..]);
    }
  }

  /** The tail of an object is an object that lacks the head's key. */
  lemma TailUnique<V>(ms: seq<Member<V>>)
    requires UniqueKeys(ms) && ms != []
    ensures UniqueKeys(ms[1..]) && ms[0].key !in KeySet(ms[1..])
  {
    var t := ms[1..];
    assert forall i :: 0 <= i < |t| ==> t[i] == ms[i + 1];
    assert IndexOf(t, ms[0].key) == |t|;
  }

  // ---------------------------------------------------------------------
  // One step of each operation

  /** Appending a member binds its key only when the key is new. */
  lemma AppendContent<V>(ms: seq<Member<V>>, m: Member<V>)
    ensures Content(ms + [m]) == if m.key in KeySet(ms) then Content(ms) else Content(ms)[m.key := m.value]
    ensures KeySet(ms + [m]) == KeySet(ms) + {m.key}
  {
    ContentConcat(ms, [m]);
    SingleContent(m);
  }

  lemma AppendKeepsUnique<V>(ms: seq<Member<V>>, m: Member<V>)
    requires UniqueKeys(ms) && m.key !in KeySet(ms)
    ensures UniqueKeys(ms + [m])
  {
    assert ms + [m] == ms[..|ms|] + [m] + ms[|ms|..];
    InsertKeepsUnique(ms, |ms|, m);
  }

  /** `try_emplace` binds the key unless it is bound already. */
  lemma EmplaceContent<V>(ms: seq<Member<V>>, key: string, value: V)
    ensures Content(Emplace(ms, key, value)) == map[key := value] + Content(ms)
  {
    AppendContent(ms, Member(key, value));
  }

  lemma EmplaceAtAgrees<V>(ms: seq<Member<V>>, hint: nat, key: string, value: V)
    requires hint <= |ms|
    ensures Content(Emplace(ms, key, value)) == Content(ms + [Member(key, value)])
    ensures Content(EmplaceAt(ms, hint, key, value).0) == Content(Emplace(ms, key, value))
    ensures UniqueKeys(ms) ==> UniqueKeys(EmplaceAt(ms, hint, key, value).0)
    ensures UniqueKeys(ms) ==> UniqueKeys(Emplace(ms, key, value))
  {
    var m := Member(key, value);
    AppendContent(ms, m);
    if key !in KeySet(ms) {
      ContentInsertNew(ms, hint, m);
      if UniqueKeys(ms) {
        InsertKeepsUnique(ms, hint, m);
        AppendKeepsUnique(ms, m);
      }
    }
  }

  /** `insert_or_assign`, hinted or not, binds the key to the new value and leaves every other binding alone. */
  lemma AssignAtAgrees<V>(ms: seq<Member<V>>, hint: nat, key: string, value: V)
    requires hint <= |ms|
    ensures Content(AssignAt(ms, hint, key, value).0) == Content(ms)[key := value]
    ensures Content(Assign(ms, key, value)) == Content(ms)[key := value]
  {
    var m := Member(key, value);
    if IndexOf(ms, key) < |ms| {
      ContentReplaceFirst(ms, key, value);
    } else {
      AppendContent(ms, m);
      ContentInsertNew(ms, hint, m);
    }
  }

  lemma AssignKeepsUnique<V>(ms: seq<Member<V>>, hint: nat, key: string, value: V)
    requires UniqueKeys(ms) && hint <= |ms|
    ensures UniqueKeys(AssignAt(ms, hint, key, value).0)
    ensures UniqueKeys(Assign(ms, key, value))
  {
    var m := Member(key, value);
    var i := IndexOf(ms, key);
    if i < |ms| {
      var r := ms[i := m];
      assert forall t :: 0 <= t < |ms| ==> r[t].key == ms[t].key;
    } else {
      InsertKeepsUnique(ms, hint, m);
      AppendKeepsUnique(ms, m);
    }
  }

  // ---------------------------------------------------------------------
  // What the operations do to the key-to-value content

  /**
   * Bulk insertion and `merge` keep the destination's values: a key already
   * present keeps its value, and every other key of `src` is bound to the
   * value of its first occurrence in `src`.
   */
  lemma {:induction false} InsertAllContent<V>(ms: seq<Member<V>>, src: seq<Member<V>>)
    decreases |src|
    ensures Content(InsertAll(ms, src)) == Content(src) + Content(ms)
  {
    if src != [] {
      var m := src[0];
      InsertAllContent(Emplace(ms, m.key, m.value), src[1..]);
      EmplaceContent(ms, m.key, m.value);
      UpdateUnderUnion(Content(src[1..]), Content(ms), m.key, m.value);
    }
  }

  /** Bulk insertion into an object leaves an object: no key is ever added twice. */
  lemma {:induction false} InsertAllKeepsUnique<V>(ms: seq<Member<V>>, src: seq<Member<V>>)
    requires UniqueKeys(ms)
    decreases |src|
    ensures UniqueKeys(InsertAll(ms, src))
  {
    if src != [] {
      EmplaceAtAgrees(ms, |ms|, src[0].key, src[0].value);
      InsertAllKeepsUnique(Emplace(ms, src[0].key, src[0].value), src[1..]);
    }
  }

  /**
   * Bulk insertion keeps the existing members in place and appends, in
   * range order, each member whose key is neither present already nor
   * earlier in the range.
   */
  lemma {:induction false} InsertAllAppendsFresh<V>(ms: seq<Member<V>>, src: seq<Member<V>>)
    decreases |src|
    ensures InsertAll(ms, src) == ms + Fresh(src, KeySet(ms))
  {
    if src != [] {
      var m := src[0];
      var ms' := Emplace(ms, m.key, m.value);
      assert InsertAll(ms, src) == InsertAll(ms', src[1..]);
      InsertAllAppendsFresh(ms', src[1..]);
      if m.key in KeySet(ms) {
        assert ms' == ms;
        assert Fresh(src, KeySet(ms)) == Fresh(src[1..], KeySet(ms));
      } else {
        assert ms' == ms + [m];
        var rest := Fresh(src[1..], KeySet(ms) + {m.key});
        assert Fresh(src, KeySet(ms)) == [m] + rest;
        assert ms' + rest == ms + ([m] + rest);
      }
    }
  }


  /** A hinted `merge` binds the same keys to the same values as a plain one; only member order may differ. */
  lemma {:induction false} InsertAllAtContent<V>(ms: seq<Member<V>>, hint: nat, src: seq<Member<V>>)
    requires hint <= |ms|
    decreases |src|
    ensures Content(InsertAllAt(ms, hint, src)) == Content(InsertAll(ms, src))
    ensures UniqueKeys(ms) ==> UniqueKeys(InsertAllAt(ms, hint, src))
  {
    if src != [] {
      var m := src[0];
      var (ms', hint') := EmplaceAt(ms, hint, m.key, m.value);
      InsertAllAtContent(ms', hint', src[1..]);
      EmplaceAtAgrees(ms, hint, m.key, m.value);
      InsertAllContent(ms', src[1..]);
      InsertAllContent(Emplace(ms, m.key, m.value), src[1..]);
    }
  }

  /**
   * `merge_or_update` lets the source win: every key of `src` ends up bound
   * to its value in `src`, and every other key keeps its value.
   */
  lemma {:induction false} AssignAllContent<V>(ms: seq<Member<V>>, src: seq<Member<V>>)
    requires UniqueKeys(src)
    decreases |src|
    ensures Content(AssignAll(ms, src)) == Content(ms) + Content(src)
  {
    if src != [] {
      var m := src[0];
      TailUnique(src);
      AssignAtAgrees(ms, |ms|, m.key, m.value);
      AssignAllContent(Assign(ms, m.key, m.value), src[1..]);
      assert Content(src) == Content(src[1..])[m.key := m.value];
      UpdateBeforeUnion(Content(ms), Content(src[1..]), m.key, m.value);
    }
  }

  /** A hinted `merge_or_update` binds the same keys to the same values as a plain one. */
  lemma {:induction false} AssignAllAtContent<V>(ms: seq<Member<V>>, hint: nat, src: seq<Member<V>>)
    requires hint <= |ms|
    requires UniqueKeys(src)
    decreases |src|
    ensures Content(AssignAllAt(ms, hint, src)) == Content(AssignAll(ms, src))
  {
    if src != [] {
      var m := src[0];
      TailUnique(src);
      var (ms', hint') := AssignAt(ms, hint, m.key, m.value);
      AssignAllAtContent(ms', hint', src[1..]);
      AssignAtAgrees(ms, hint, m.key, m.value);
      AssignAllContent(ms', src[1..]);
      AssignAllContent(Assign(ms, m.key, m.value), src[1..]);
    }
  }

  /** `erase(first, last)` on an object removes exactly the keys of the erased members. */
  lemma EraseRangeContent<V>(ms: seq<Member<V>>, first: nat, last: nat)
    requires UniqueKeys(ms) && first <= last <= |ms|
    ensures Content(EraseRange(ms, first, last)) == Content(ms) - KeySet(ms[first..last])
    ensures UniqueKeys(EraseRange(ms, first, last))
    ensures |EraseRange(ms, first, last)| == |ms| - (last - first)
  {
    var a, b, c := ms[..first], ms[first..last], ms[last..];
    assert ms == a + (b + c);
    ContentConcat(a, b + c);
    ContentConcat(b, c);
    ContentConcat(a, c);
    ErasedKeysDisjoint(ms, first, last);
    RemoveMiddle(Content(a), Content(b), Content(c));
    EraseKeepsUnique(ms, first, last);
  }

  lemma RemoveMiddle<K, V>(a: map<K, V>, b: map<K, V>, c: map<K, V>)
    requires a.Keys !! b.Keys && c.Keys !! b.Keys
    ensures (c + b) + a - b.Keys == c + a
  {
  }

  /** In an object, the keys of a slice occur nowhere outside it. */
  lemma ErasedKeysDisjoint<V>(ms: seq<Member<V>>, first: nat, last: nat)
    requires UniqueKeys(ms) && first <= last <= |ms|
    ensures KeySet(ms[..first]) !! KeySet(ms[first..last])
    ensures KeySet(ms[last..]) !! KeySet(ms[first..last])
  {
    var a, b, c := ms[..first], ms[first..last], ms[last..];
    assert forall t :: 0 <= t < |a| ==> a[t] == ms[t];
    assert forall t :: 0 <= t < |b| ==> b[t] == ms[first + t];
    assert forall t :: 0 <= t < |c| ==> c[t] == ms[last + t];
    forall k | k in KeySet(b)
      ensures k !in KeySet(a) && k !in KeySet(c)
    {
      var i, j, l := IndexOf(a, k), IndexOf(b, k), IndexOf(c, k);
    }
  }

  lemma EraseKeepsUnique<V>(ms: seq<Member<V>>, first: nat, last: nat)
    requires UniqueKeys(ms) && first <= last <= |ms|
    ensures UniqueKeys(ms[..first] + ms[last..])
  {
    var r := ms[..first] + ms[last..];
    forall i, j | 0 <= i < j < |r| ensures r[i].key != r[j].key {
      var i' := if i < first then i else i + (last - first);
      var j' := if j < first then j else j + (last - first);
      assert r[i] == ms[i'] && r[j] == ms[j'];
    }
  }

  /** Removing the members whose key is in `doomed` removes exactly those keys. */
  lemma {:induction false} WithoutContent<V>(ms: seq<Member<V>>, doomed: set<string>)
    ensures Content(Without(ms, doomed)) == Content(ms) - doomed
  {
    if ms != [] {
      WithoutContent(ms[1..], doomed);
    }
  }

  lemma {:induction false} WithoutKeepsUnique<V>(ms: seq<Member<V>>, doomed: set<string>)
    requires UniqueKeys(ms)
    ensures UniqueKeys(Without(ms, doomed))
  {
    if ms != [] {
      TailUnique(ms);
      var w := Without(ms[1..], doomed);
      WithoutKeepsUnique(ms[1..], doomed);
      if ms[0].key !in doomed {
        WithoutContent(ms[1..], doomed);
        var r := [ms[0]] + w;
        assert r[1..] == w;
        forall i, j | 0 <= i < j < |r| ensures r[i].key != r[j].key {
          if i == 0 { KeyAt(w, j - 1); }
        }
      }
    }
  }


  /** Bulk insertion of keys that are all new keeps every member, in order. */
  lemma {:induction false} InsertAllDistinct<V>(ms: seq<Member<V>>, src: seq<Member<V>>)
    requires UniqueKeys(ms + src)
    decreases |src|
    ensures InsertAll(ms, src) == ms + src
  {
    if src != [] {
      var m := src[0];
      assert ms + src == (ms + [m]) + src[1..];
      assert forall t :: 0 <= t < |ms| ==> (ms + src)[t] == ms[t];
      assert (ms + src)[|ms|] == m;
      assert IndexOf(ms, m.key) == |ms|;
      InsertAllDistinct(ms + [m], src[1..]);
    }
  }
}
