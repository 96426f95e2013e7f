/**
 * The test cases of test/corelib/src/ojson_object_tests.cpp, replayed on
 * the `OrderedObject` model. Each test method builds the documents the
 * test builds, performs the same calls, and its postcondition states what
 * the test's CHECKs state. A document given as JSON text is built the way
 * the parser builds an object: by inserting its members in text order.
 * The merge tests' `expected == doc` is read as equality of key-to-value
 * content, and merge outcomes are stated on `Content`: this assumes that
 * object `==` ignores member order, which the hinted merges need (their
 * assumed hint rule orders new keys differently from the expected texts).
 */
module OjsonObjectTests {
  import opened OjsonMembers
  import opened OjsonObject

  /** The values that occur in the test documents. */
  datatype Json = Int(n: int) | Str(s: string) | IntArray(items: seq<int>)

  /** An object holding `pairs` inserted in order, as the parser builds it from an object text. */
  method FromMembers(pairs: seq<Member<Json>>) returns (doc: OrderedObject<Json>)
    ensures fresh(doc) && doc.Valid()
    ensures doc.members == InsertAll([], pairs)
    ensures UniqueKeys(pairs) ==> doc.members == pairs
  {
    doc := new OrderedObject();
    doc.InsertRange(pairs);
    if UniqueKeys(pairs) {
      assert [] + pairs == pairs;
      InsertAllDistinct([], pairs);
    }
  }

  /**
   * The loop of lines 64-75: walk the object with an iterator, erasing each
   * member whose key is in `doomed` (`it = doc.erase(it)`) and stepping past
   * every other member (`it++`).
   */
  method EraseMatching(doc: OrderedObject<Json>, doomed: set<string>)
    requires doc.Valid()
    modifies doc
    ensures doc.Valid()
    ensures doc.members == Without(old(doc.members), doomed)
  {
    ghost var target := Without(doc.members, doomed);
    var it := 0;
    while it < doc.Size()
      invariant it <= |doc.members|
      invariant doc.Valid()
      invariant doc.members[..it] + Without(doc.members[it..], doomed) == target
      decreases |doc.members| - it
    {
      ghost var before := doc.members;
      WithoutStep(before, it, doomed);
      if doc.members[it].key in doomed {
        it := doc.Erase(it);
        SpliceParts(before[..it], before[it + 1..]);
      } else {
        it := it + 1;
      }
    }
    assert doc.members[..it] == doc.members;
  }

  /** The two halves of a concatenation, read back by position. */
  lemma SpliceParts<T>(a: seq<T>, b: seq<T>)
    ensures (a + b)[..|a|] == a && (a + b)[|a|..] == b
  {
  }

  /** One step of the loop above: the member at `it` is either dropped or kept in front of the rest. */
  lemma WithoutStep<V>(ms: seq<Member<V>>, it: nat, doomed: set<string>)
    requires it < |ms|
    ensures ms[it].key in doomed ==> ms[..it] + Without(ms[it..], doomed) == ms[..it] + Without(ms[it + 1..], doomed)
    ensures ms[it].key !in doomed ==> ms[..it] + Without(ms[it..], doomed) == ms[..it + 1] + Without(ms[it + 1..], doomed)
  {
    var w := Without(ms[it + 1..], doomed);
    assert ms[it..][1..] == ms[it + 1..];
    if ms[it].key in doomed {
      assert Without(ms[it..], doomed) == w;
    } else {
      assert Without(ms[it..], doomed) == [ms[it]] + w;
      assert ms[..it] + ([ms[it]] + w) == ms[..it + 1] + w;
    }
  }

  /**
   * The loops of lines 90-101 and 116-127: walk the object with an
   * iterator; at the member with `key` erase it and the member after it
   * (`it = doc.erase(it, it+2)`), elsewhere step on (`it++`). The range
   * `it, it+2` must lie in the object, so a member with `key` must not be
   * the last one.
   */
  method EraseTwoFrom(doc: OrderedObject<Json>, key: string)
    requires doc.Valid()
    requires IndexOf(doc.members, key) < |doc.members| ==> IndexOf(doc.members, key) + 2 <= |doc.members|
    modifies doc
    ensures doc.Valid()
    ensures var i := IndexOf(old(doc.members), key);
            doc.members == if i < |old(doc.members)| then EraseRange(old(doc.members), i, i + 2) else old(doc.members)
  {
    ghost var start := doc.members;
    ghost var i := IndexOf(start, key);
    ghost var target := if i < |start| then EraseRange(start, i, i + 2) else start;
    if i < |start| {
      ErasedKeyGone(start, i);
    }
    var it := 0;
    ghost var erased := false;
    while it < doc.Size()
      invariant it <= |doc.members|
      invariant doc.Valid()
      invariant doc.members == if erased then target else start
      invariant !erased ==> it <= i
      invariant erased ==> key !in KeySet(doc.members)
      decreases |doc.members| - it
    {
      if doc.members[it].key == key {
        KeyAt(doc.members, it);
        assert !erased && it == i;
        it := doc.EraseRange(it, it + 2);
        erased := true;
      } else {
        it := it + 1;
      }
    }
  }

  /** Erasing the first member with a key and the member after it leaves no member with that key. */
  lemma ErasedKeyGone<V>(ms: seq<Member<V>>, i: nat)
    requires UniqueKeys(ms) && i + 2 <= |ms|
    ensures ms[i].key !in KeySet(EraseRange(ms, i, i + 2))
  {
    EraseRangeContent(ms, i, i + 2);
    KeyAt(ms[i..i + 2], 0);
  }

  /**
   * TEST_CASE "ojson insert(first,last) test": the two `std::map`s of lines
   * 20-21 are ranges in key order; inserting both gives six members whose
   * keys come in the order d, e, f, a, b, c.
   */
  method InsertRangeTest() returns (doc: OrderedObject<Json>)
    ensures doc.Size() == 6
    ensures KeyOrder(doc.members) == ["d", "e", "f", "a", "b", "c"]
  {
    var m1 := [Member("d", Int(6)), Member("e", Int(5)), Member("f", Int(4))];
    var m2 := [Member("a", Int(3)), Member("b", Int(2)), Member("c", Int(1))];
    DistinctKeys(m1, m2);
    doc := InsertBoth(m1, m2);
    SixKeys(m1, m2);
  }

  /** `doc.insert` of one range and then another into an empty object (lines 24-25). */
  method InsertBoth<V>(m1: seq<Member<V>>, m2: seq<Member<V>>) returns (doc: OrderedObject<V>)
    requires UniqueKeys(m1 + m2)
    ensures fresh(doc) && doc.Valid()
    ensures doc.members == m1 + m2
  {
    doc := new OrderedObject();
    doc.InsertRange(m1);
    doc.InsertRange(m2);
    InsertTwice(m1, m2);
  }

  lemma SixKeys(m1: seq<Member<Json>>, m2: seq<Member<Json>>)
    requires m1 == [Member("d", Int(6)), Member("e", Int(5)), Member("f", Int(4))]
    requires m2 == [Member("a", Int(3)), Member("b", Int(2)), Member("c", Int(1))]
    ensures |m1 + m2| == 6
    ensures KeyOrder(m1 + m2) == ["d", "e", "f", "a", "b", "c"]
  {
  }

  /** Inserting two ranges whose keys are all distinct appends them, in order. */
  lemma InsertTwice<V>(m1: seq<Member<V>>, m2: seq<Member<V>>)
    requires UniqueKeys(m1 + m2)
    ensures InsertAll(InsertAll([], m1), m2) == m1 + m2
  {
    assert [] + m1 == m1;
    assert UniqueKeys(m1) by {
      assert forall i :: 0 <= i < |m1| ==> (m1 + m2)[i] == m1[i];
    }
    InsertAllDistinct([], m1);
    InsertAllDistinct(m1, m2);
  }

  lemma DistinctKeys(m1: seq<Member<Json>>, m2: seq<Member<Json>>)
    requires m1 == [Member("d", Int(6)), Member("e", Int(5)), Member("f", Int(4))]
    requires m2 == [Member("a", Int(3)), Member("b", Int(2)), Member("c", Int(1))]
    ensures UniqueKeys(m1 + m2)
  {
  }

  /** TEST_CASE "ojson parse_duplicate_names": distinct names are all kept; of a repeated name the first wins. */
  method ParseDuplicateNamesTest() returns (oj1: OrderedObject<Json>, oj2: OrderedObject<Json>)
    ensures oj1.Size() == 3
    ensures Content(oj1.members) == map["first" := Int(1), "second" := Int(2), "third" := Int(3)]
    ensures oj2.Size() == 2
    ensures Content(oj2.members) == map["first" := Int(1), "second" := Int(2)]
  {
    var p1 := [Member("first", Int(1)), Member("second", Int(2)), Member("third", Int(3))];
    DistinctNames(p1);
    oj1 := FromMembers(p1);
    var p2 := [Member("first", Int(1)), Member("second", Int(2)), Member("first", Int(3))];
    RepeatedName(p2);
    oj2 := FromMembers(p2);
  }

  lemma DistinctNames(p1: seq<Member<Json>>)
    requires p1 == [Member("first", Int(1)), Member("second", Int(2)), Member("third", Int(3))]
    ensures UniqueKeys(p1)
    ensures Content(p1) == map["first" := Int(1), "second" := Int(2), "third" := Int(3)]
  {
    assert p1[1..][1..][1..] == [];
    assert Content(p1[1..][1..]) == map["third" := Int(3)];
    assert Content(p1[1..]) == map["second" := Int(2), "third" := Int(3)];
  }

  lemma RepeatedName(p2: seq<Member<Json>>)
    requires p2 == [Member("first", Int(1)), Member("second", Int(2)), Member("first", Int(3))]
    ensures |InsertAll([], p2)| == 2
    ensures Content(InsertAll([], p2)) == map["first" := Int(1), "second" := Int(2)]
  {
    InsertAllAppendsFresh([], p2);
    assert Fresh(p2[1..][1..], {"first", "second"}) == [] by {
      assert p2[1..][1..][1..] == [];
    }
    assert {} + {"first"} == {"first"} && {"first"} + {"second"} == {"first", "second"};
    assert Fresh(p2[1..], {"first"}) == [p2[1]];
    var r := Fresh(p2, {});
    assert r == [p2[0], p2[1]];
    assert [] + r == r && r[1..][1..] == [];
  }

  /** The object of lines 58-62 and 84-88: `try_emplace` of a:1, b:2, c:3 on an empty object. */
  method EmplaceABC() returns (doc: OrderedObject<Json>)
    ensures fresh(doc) && doc.Valid()
    ensures doc.members == [Member("a", Int(1)), Member("b", Int(2)), Member("c", Int(3))]
  {
    doc := new OrderedObject();
    var _, _ := doc.TryEmplace("a", Int(1));
    var _, _ := doc.TryEmplace("b", Int(2));
    var _, _ := doc.TryEmplace("c", Int(3));
  }

  /** The object of lines 110-114: `try_emplace` of c:1, b:2, a:3 on an empty object. */
  method EmplaceCBA() returns (doc: OrderedObject<Json>)
    ensures fresh(doc) && doc.Valid()
    ensures doc.members == [Member("c", Int(1)), Member("b", Int(2)), Member("a", Int(3))]
  {
    doc := new OrderedObject();
    var _, _ := doc.TryEmplace("c", Int(1));
    var _, _ := doc.TryEmplace("b", Int(2));
    var _, _ := doc.TryEmplace("a", Int(3));
  }

  /** SECTION "ojson erase with iterator": erasing a and c while iterating leaves b:2 alone. */
  method EraseWithIteratorTest() returns (doc: OrderedObject<Json>, b: Option<Json>)
    ensures doc.Size() == 1
    ensures b == Some(Int(2))
  {
    doc := EmplaceABC();
    ghost var abc := doc.members;
    assert Without(abc[1..][1..], {"a", "c"}) == [] by {
      assert abc[1..][1..][1..] == [];
    }
    assert Without(abc[1..], {"a", "c"}) == [Member("b", Int(2))];
    EraseMatching(doc, {"a", "c"});
    assert doc.members == [Member("b", Int(2))];
    b := doc.At("b");
  }

  /** SECTION "ojson erase with iterator 2": erasing `[it, it+2)` at a leaves c:3 alone. */
  method EraseWithIterator2Test() returns (doc: OrderedObject<Json>, c: Option<Json>)
    ensures doc.Size() == 1
    ensures c == Some(Int(3))
  {
    doc := EmplaceABC();
    assert IndexOf(doc.members, "a") == 0;
    EraseTwoFrom(doc, "a");
    assert doc.members == [Member("c", Int(3))];
    c := doc.At("c");
  }

  /** SECTION "ojson erase with iterator 3": c:1, b:2, a:3; erasing `[it, it+2)` at c leaves a:3 alone. */
  method EraseWithIterator3Test() returns (doc: OrderedObject<Json>, a: Option<Json>)
    ensures doc.Size() == 1
    ensures a == Some(Int(3))
  {
    doc := EmplaceCBA();
    assert IndexOf(doc.members, "c") == 0;
    EraseTwoFrom(doc, "c");
    assert doc.members == [Member("a", Int(3))];
    a := doc.At("a");
  }

  /** The documents of lines 138-154: `doc` is {a:1, b:2}, `source` is {a:2, c:3, d:4, b:5, e:6}. */
  method MergeInputs() returns (doc: OrderedObject<Json>, source: OrderedObject<Json>)
    ensures fresh(doc) && fresh(source) && doc != source
    ensures doc.Valid() && source.Valid()
    ensures doc.members == [Member("a", Int(1)), Member("b", Int(2))]
    ensures source.members == [Member("a", Int(2)), Member("c", Int(3)), Member("d", Int(4)), Member("b", Int(5)), Member("e", Int(6))]
  {
    doc := FromMembers([Member("a", Int(1)), Member("b", Int(2))]);
    source := FromMembers([Member("a", Int(2)), Member("c", Int(3)), Member("d", Int(4)), Member("b", Int(5)), Member("e", Int(6))]);
  }

  /** The merged content both sections of "test_ojson_merge" expect: the keys of `doc` keep their values. */
  const MergedABCDE := map["a" := Int(1), "b" := Int(2), "c" := Int(3), "d" := Int(4), "e" := Int(6)]

  lemma MergeInputsContent(d: seq<Member<Json>>, s: seq<Member<Json>>)
    requires d == [Member("a", Int(1)), Member("b", Int(2))]
    requires s == [Member("a", Int(2)), Member("c", Int(3)), Member("d", Int(4)), Member("b", Int(5)), Member("e", Int(6))]
    ensures Content(s) + Content(d) == MergedABCDE
  {
    assert d[1..][1..] == [];
    assert Content(d) == map["a" := Int(1), "b" := Int(2)];
    assert s[1..][1..][1..][1..][1..] == [];
    assert Content(s[1..][1..][1..]) == map["b" := Int(5), "e" := Int(6)];
    assert Content(s[1..]) == map["c" := Int(3), "d" := Int(4), "b" := Int(5), "e" := Int(6)];
  }

  /** SECTION "merge doc with source". */
  method MergeTest() returns (doc: OrderedObject<Json>)
    ensures Content(doc.members) == MergedABCDE
  {
    var source;
    doc, source := MergeInputs();
    ghost var d, s := doc.members, source.members;
    MergeInputsContent(d, s);
    doc.Merge(source);
    InsertAllContent(d, s);
  }

  /** SECTION "merge doc": `merge(begin()+1, source)`. */
  method MergeAtTest() returns (doc: OrderedObject<Json>)
    ensures Content(doc.members) == MergedABCDE
  {
    var source;
    doc, source := MergeInputs();
    ghost var d, s := doc.members, source.members;
    MergeInputsContent(d, s);
    doc.MergeAt(1, source);
    InsertAllAtContent(d, 1, s);
    InsertAllContent(d, s);
  }

  /** The documents of lines 184-196: `doc` is {a:"1", d:[1,2,3]}, `source` is {a:"2", c:[4,5,6]}. */
  method MoveInputs() returns (doc: OrderedObject<Json>, source: OrderedObject<Json>)
    ensures fresh(doc) && fresh(source) && doc != source
    ensures doc.Valid() && source.Valid()
    ensures doc.members == [Member("a", Str("1")), Member("d", IntArray([1, 2, 3]))]
    ensures source.members == [Member("a", Str("2")), Member("c", IntArray([4, 5, 6]))]
  {
    doc := FromMembers([Member("a", Str("1")), Member("d", IntArray([1, 2, 3]))]);
    source := FromMembers([Member("a", Str("2")), Member("c", IntArray([4, 5, 6]))]);
  }

  lemma MoveInputsContent(d: seq<Member<Json>>, s: seq<Member<Json>>)
    requires d == [Member("a", Str("1")), Member("d", IntArray([1, 2, 3]))]
    requires s == [Member("a", Str("2")), Member("c", IntArray([4, 5, 6]))]
    ensures UniqueKeys(s)
    ensures Content(s) + Content(d) == map["a" := Str("1"), "d" := IntArray([1, 2, 3]), "c" := IntArray([4, 5, 6])]
    ensures Content(d) + Content(s) == map["a" := Str("2"), "d" := IntArray([1, 2, 3]), "c" := IntArray([4, 5, 6])]
  {
    assert d[1..][1..] == [];
    assert s[1..][1..] == [];
  }

  /** SECTION "merge source into doc": `merge(std::move(source))`. */
  method MergeMoveTest() returns (doc: OrderedObject<Json>)
    ensures Content(doc.members) == map["a" := Str("1"), "d" := IntArray([1, 2, 3]), "c" := IntArray([4, 5, 6])]
  {
    var source;
    doc, source := MoveInputs();
    ghost var d, s := doc.members, source.members;
    MoveInputsContent(d, s);
    doc.MergeMove(source);
    InsertAllContent(d, s);
  }

  /** SECTION "merge source into doc at begin": `merge(begin(), std::move(source))`. */
  method MergeMoveAtTest() returns (doc: OrderedObject<Json>)
    ensures Content(doc.members) == map["a" := Str("1"), "d" := IntArray([1, 2, 3]), "c" := IntArray([4, 5, 6])]
  {
    var source;
    doc, source := MoveInputs();
    ghost var d, s := doc.members, source.members;
    MoveInputsContent(d, s);
    doc.MergeMoveAt(0, source);
    InsertAllAtContent(d, 0, s);
    InsertAllContent(d, s);
  }

  /** The documents of lines 232-245: `doc` is {a:1, b:2}, `source` is {a:2, c:3}. */
  method UpdateInputs() returns (doc: OrderedObject<Json>, source: OrderedObject<Json>)
    ensures fresh(doc) && fresh(source) && doc != source
    ensures doc.Valid() && source.Valid()
    ensures doc.members == [Member("a", Int(1)), Member("b", Int(2))]
    ensures source.members == [Member("a", Int(2)), Member("c", Int(3))]
  {
    doc := FromMembers([Member("a", Int(1)), Member("b", Int(2))]);
    source := FromMembers([Member("a", Int(2)), Member("c", Int(3))]);
  }

  /** The content both sections of "ojson merge_or_update test" expect: `source`'s values win. */
  const UpdatedABC := map["a" := Int(2), "b" := Int(2), "c" := Int(3)]

  lemma UpdateInputsContent(d: seq<Member<Json>>, s: seq<Member<Json>>)
    requires d == [Member("a", Int(1)), Member("b", Int(2))]
    requires s == [Member("a", Int(2)), Member("c", Int(3))]
    ensures UniqueKeys(s)
    ensures Content(d) + Content(s) == UpdatedABC
  {
    assert d[1..][1..] == [];
    assert s[1..][1..] == [];
  }

  /** SECTION "merge_or_update source into doc". */
  method MergeOrUpdateTest() returns (doc: OrderedObject<Json>)
    ensures Content(doc.members) == UpdatedABC
  {
    var source;
    doc, source := UpdateInputs();
    ghost var d, s := doc.members, source.members;
    UpdateInputsContent(d, s);
    doc.MergeOrUpdate(source);
    AssignAllContent(d, s);
  }

  /** SECTION "merge_or_update source into doc at pos 1": `merge_or_update(begin()+1, source)`. */
  method MergeOrUpdateAtTest() returns (doc: OrderedObject<Json>)
    ensures Content(doc.members) == UpdatedABC
  {
    var source;
    doc, source := UpdateInputs();
    ghost var d, s := doc.members, source.members;
    UpdateInputsContent(d, s);
    doc.MergeOrUpdateAt(1, source);
    AssignAllAtContent(d, 1, s);
    AssignAllContent(d, s);
  }

  /**
   * SECTION "merge or update doc from source at pos" of
   * "test_ojson_merge_or_update_move": `merge_or_update(begin(), std::move(source))`.
   */
  method MergeOrUpdateMoveAtTest() returns (doc: OrderedObject<Json>)
    ensures Content(doc.members) == map["a" := Str("2"), "d" := IntArray([1, 2, 3]), "c" := IntArray([4, 5, 6])]
  {
    var source;
    doc, source := MoveInputs();
    ghost var d, s := doc.members, source.members;
    MoveInputsContent(d, s);
    doc.MergeOrUpdateMoveAt(0, source);
    AssignAllAtContent(d, 0, s);
    AssignAllContent(d, s);
  }
}
