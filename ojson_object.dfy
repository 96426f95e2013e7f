/**
 * The insertion-ordered JSON object of jsoncons (`ojson` in object form)
 * as a class over its member sequence. Each mutating method is proved to
 * leave `members` equal to the matching function of `OjsonMembers`, and
 * to keep keys unique; what those functions mean for the key-to-value
 * content is proved there.
 */
module OjsonObject {
  import opened OjsonMembers

  datatype Option<T> = None | Some(value: T)

  class OrderedObject<V> {
    /** The members, in insertion order. */
    var members: seq<Member<V>>

    ghost predicate Valid()
      reads this
    {
      UniqueKeys(members)
    }

    /** `ojson doc(json_object_arg)`: an empty object. */
    constructor ()
      ensures Valid() && members == []
    {
      members := [];
    }

    /** `size()`: the number of members, which in an object is the number of bound keys. */
    function Size(): (n: nat)
      reads this
      ensures Valid() ==> n == |Content(members)|
    {
      UniqueKeysCount(members);
      |members|
    }

    /** `find(key)`: the position of the member with `key`, or `Size()` (the end iterator). */
    method Find(key: string) returns (i: nat)
      ensures i <= |members|
      ensures i < |members| ==> members[i].key == key
      ensures forall j :: 0 <= j < i ==> members[j].key != key
      ensures i == IndexOf(members, key)
    {
      i := 0;
      while i < |members| && members[i].key != key
        invariant i <= |members|
        invariant forall j :: 0 <= j < i ==> members[j].key != key
      {
        i := i + 1;
      }
    }

    /** `at(key)`: the value bound to `key`; `None` stands for the key-not-found error. */
    method At(key: string) returns (r: Option<V>)
      requires Valid()
      ensures r.Some? <==> key in Content(members)
      ensures r.Some? ==> r.value == Content(members)[key]
    {
      var i := Find(key);
      if i < |members| {
        ContentAt(members, i);
        r := Some(members[i].value);
      } else {
        r := None;
      }
    }

    /**
     * `try_emplace(key, value)`: when `key` is absent, append the member;
     * either way return the position of the member with `key` and whether
     * it was inserted.
     */
    method TryEmplace(key: string, value: V) returns (pos: nat, inserted: bool)
      requires Valid()
      modifies this
      ensures Valid()
      ensures members == Emplace(old(members), key, value)
      ensures inserted <==> key !in KeySet(old(members))
      ensures pos < |members| && members[pos].key == key
      ensures !inserted ==> members[pos] == old(members)[pos]
    {
      EmplaceAtAgrees(members, |members|, key, value);
      pos := Find(key);
      inserted := pos == |members|;
      if inserted {
        members := members + [Member(key, value)];
      }
    }

    /** `try_emplace(hint, key, value)`: like `TryEmplace`, but a new member goes just before `hint`. */
    method TryEmplaceAt(hint: nat, key: string, value: V) returns (pos: nat, inserted: bool)
      requires Valid() && hint <= |members|
      modifies this
      ensures Valid()
      ensures (members, if inserted then hint + 1 else hint) == EmplaceAt(old(members), hint, key, value)
      ensures inserted <==> key !in KeySet(old(members))
      ensures pos < |members| && members[pos].key == key
    {
      EmplaceAtAgrees(members, hint, key, value);
      pos := Find(key);
      inserted := pos == |members|;
      if inserted {
        members := members[..hint] + [Member(key, value)] + members[hint..];
        pos := hint;
      }
    }

    /** `insert_or_assign(key, value)`: overwrite the value of an existing key in place, else append. */
    method InsertOrAssign(key: string, value: V)
      requires Valid()
      modifies this
      ensures Valid()
      ensures members == Assign(old(members), key, value)
    {
      AssignKeepsUnique(members, |members|, key, value);
      var i := Find(key);
      if i < |members| {
        members := members[i := Member(key, value)];
      } else {
        members := members + [Member(key, value)];
      }
    }

    /** `insert_or_assign(hint, key, value)`: like `InsertOrAssign`, but a new member goes just before `hint`. */
    method InsertOrAssignAt(hint: nat, key: string, value: V) returns (inserted: bool)
      requires Valid() && hint <= |members|
      modifies this
      ensures Valid()
      ensures (members, if inserted then hint + 1 else hint) == AssignAt(old(members), hint, key, value)
    {
      AssignKeepsUnique(members, hint, key, value);
      var i := Find(key);
      inserted := i == |members|;
      if inserted {
        members := members[..hint] + [Member(key, value)] + members[hint..];
      } else {
        members := members[i := Member(key, value)];
      }
    }

    /** `insert(first, last)`: `try_emplace` each pair of the range, in range order. */
    method InsertRange(pairs: seq<Member<V>>)
      requires Valid()
      modifies this
      ensures Valid()
      ensures members == InsertAll(old(members), pairs)
    {
      var i := 0;
      while i < |pairs|
        invariant i <= |pairs|
        invariant Valid()
        invariant InsertAll(members, pairs[i..]) == InsertAll(old(members), pairs)
      {
        assert pairs[i..][1..] == pairs[i + 1..];
        var _, _ := TryEmplace(pairs[i].key, pairs[i].value);
        i := i + 1;
      }
    }

    /** `erase(pos)`: remove the member at `pos`; the result is the iterator to the member after it. */
    method Erase(pos: nat) returns (next: nat)
      requires Valid() && pos < |members|
      modifies this
      ensures Valid()
      ensures members == old(members)[..pos] + old(members)[pos + 1..]
      ensures next == pos
      ensures next < |members| ==> members[next] == old(members)[pos + 1]
    {
      EraseRangeContent(members, pos, pos + 1);
      members := members[..pos] + members[pos + 1..];
      next := pos;
    }

    /** `erase(first, last)`: remove the members at `first .. last-1`; the result is the iterator to the member after them. */
    method EraseRange(first: nat, last: nat) returns (next: nat)
      requires Valid() && first <= last <= |members|
      modifies this
      ensures Valid()
      ensures members == OjsonMembers.EraseRange(old(members), first, last)
      ensures next == first
      ensures next < |members| ==> members[next] == old(members)[last]
    {
      EraseRangeContent(members, first, last);
      members := members[..first] + members[last..];
      next := first;
    }

    /** `merge(source)`: add each member of `source` whose key is absent here, at the end, in `source`'s order. */
    method Merge(source: OrderedObject<V>)
      requires Valid() && source.Valid()
      modifies this
      ensures Valid()
      ensures members == InsertAll(old(members), old(source.members))
    {
      InsertRange(source.members);
    }

    /** `merge(hint, source)`: as `Merge`, but the new members go just before `hint`, in `source`'s order. */
    method MergeAt(hint: nat, source: OrderedObject<V>)
      requires Valid() && source.Valid() && hint <= |members|
      modifies this
      ensures Valid()
      ensures members == InsertAllAt(old(members), hint, old(source.members))
    {
      var src := source.members;
      var h: nat, i: nat := hint, 0;
      while i < |src|
        invariant i <= |src| && h <= |members|
        invariant Valid()
        invariant InsertAllAt(members, h, src[i..]) == InsertAllAt(old(members), hint, src)
      {
        assert src[i..][1..] == src[i + 1..];
        var _, inserted := TryEmplaceAt(h, src[i].key, src[i].value);
        if inserted {
          h := h + 1;
        }
        i := i + 1;
      }
    }

    /** `merge(std::move(source))`: as `Merge`; the members are moved out, leaving `source` empty. */
    method MergeMove(source: OrderedObject<V>)
      requires Valid() && source.Valid() && source != this
      modifies this, source
      ensures Valid() && source.Valid()
      ensures members == InsertAll(old(members), old(source.members))
      ensures source.members == []
    {
      Merge(source);
      source.members := [];
    }

    /** `merge(hint, std::move(source))`: as `MergeAt`, leaving `source` empty. */
    method MergeMoveAt(hint: nat, source: OrderedObject<V>)
      requires Valid() && source.Valid() && source != this && hint <= |members|
      modifies this, source
      ensures Valid() && source.Valid()
      ensures members == InsertAllAt(old(members), hint, old(source.members))
      ensures source.members == []
    {
      MergeAt(hint, source);
      source.members := [];
    }

    /** `merge_or_update(source)`: `insert_or_assign` each member of `source`, in `source`'s order. */
    method MergeOrUpdate(source: OrderedObject<V>)
      requires Valid() && source.Valid()
      modifies this
      ensures Valid()
      ensures members == AssignAll(old(members), old(source.members))
    {
      var src := source.members;
      var i := 0;
      while i < |src|
        invariant i <= |src|
        invariant Valid()
        invariant AssignAll(members, src[i..]) == AssignAll(old(members), src)
      {
        assert src[i..][1..] == src[i + 1..];
        InsertOrAssign(src[i].key, src[i].value);
        i := i + 1;
      }
    }

    /** `merge_or_update(hint, source)`: as `MergeOrUpdate`, but the new members go just before `hint`. */
    method MergeOrUpdateAt(hint: nat, source: OrderedObject<V>)
      requires Valid() && source.Valid() && hint <= |members|
      modifies this
      ensures Valid()
      ensures members == AssignAllAt(old(members), hint, old(source.members))
    {
      var src := source.members;
      var h: nat, i: nat := hint, 0;
      while i < |src|
        invariant i <= |src| && h <= |members|
        invariant Valid()
        invariant AssignAllAt(members, h, src[i..]) == AssignAllAt(old(members), hint, src)
      {
        assert src[i..][1..] == src[i + 1..];
        var inserted := InsertOrAssignAt(h, src[i].key, src[i].value);
        if inserted {
          h := h + 1;
        }
        i := i + 1;
      }
    }

    /** `merge_or_update(std::move(source))`: as `MergeOrUpdate`, leaving `source` empty. */
    method MergeOrUpdateMove(source: OrderedObject<V>)
      requires Valid() && source.Valid() && source != this
      modifies this, source
      ensures Valid() && source.Valid()
      ensures members == AssignAll(old(members), old(source.members))
      ensures source.members == []
    {
      MergeOrUpdate(source);
      source.members := [];
    }

    /** `merge_or_update(hint, std::move(source))`: as `MergeOrUpdateAt`, leaving `source` empty. */
    method MergeOrUpdateMoveAt(hint: nat, source: OrderedObject<V>)
      requires Valid() && source.Valid() && source != this && hint <= |members|
      modifies this, source
      ensures Valid() && source.Valid()
      ensures members == AssignAllAt(old(members), hint, old(source.members))
      ensures source.members == []
    {
      MergeOrUpdateAt(hint, source);
      source.members := [];
    }
  }
}
