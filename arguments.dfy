/**
 * The call-arguments object: an ordered list of (key, value) entries with
 * distinct keys, in the object's enumeration order. Values are the strings
 * that string concatenation and query serialisation coerce them to.
 */
module Arguments {
  import opened Options

  datatype Arg = Arg(key: string, value: string)

  function Keys(entries: seq<Arg>): set<string> {
    set e | e in entries :: e.key
  }

  predicate DistinctKeys(entries: seq<Arg>) {
    forall i, j :: 0 <= i < j < |entries| ==> entries[i].key != entries[j].key
  }

  /** `args[key]`: the value stored under `key`, if any. */
  function Lookup(entries: seq<Arg>, key: string): Option<string> {
    if entries == [] then None
    else if entries[0].key == key then Some(entries[0].value)
    else Lookup(entries[1..], key)
  }

  /** The entries left after `delete args[key]`, in their original order. */
  function RemoveKey(entries: seq<Arg>, key: string): seq<Arg> {
    if entries == [] then []
    else (if entries[0].key == key then [] else [entries[0]]) + RemoveKey(entries[1..], key)
  }

  /** Seen as a map, deleting a key removes exactly that key and keeps every other binding. */
  lemma {:induction false} RemoveKeyAsMap(entries: seq<Arg>, key: string, other: string)
    ensures Keys(RemoveKey(entries, key)) == Keys(entries) - {key}
    ensures Lookup(RemoveKey(entries, key), other) == if other == key then None else Lookup(entries, other)
  {
    RemoveKeyKeys(entries, key);
    RemoveKeyLookup(entries, key, other);
  }

  lemma KeysAppend(a: seq<Arg>, b: seq<Arg>)
    ensures Keys(a + b) == Keys(a) + Keys(b)
  {
  }

  lemma {:induction false} RemoveKeyKeys(entries: seq<Arg>, key: string)
    ensures Keys(RemoveKey(entries, key)) == Keys(entries) - {key}
  {
    if entries != [] {
      RemoveKeyKeys(entries[1..], key);
      assert entries == [entries[0]] + entries[1..];
      KeysAppend([entries[0]], entries[1..]);
      var head := if entries[0].key == key then [] else [entries[0]];
      KeysAppend(head, RemoveKey(entries[1..], key));
    }
  }

  lemma {:induction false} RemoveKeyLookup(entries: seq<Arg>, key: string, other: string)
    ensures Lookup(RemoveKey(entries, key), other) == if other == key then None else Lookup(entries, other)
  {
    if entries != [] {
      RemoveKeyLookup(entries[1..], key, other);
      var r := RemoveKey(entries[1..], key);
      if entries[0].key == key {
        assert RemoveKey(entries, key) == [] + r;
        assert [] + r == r;
      } else {
        var whole := RemoveKey(entries, key);
        assert whole == [entries[0]] + r;
        assert whole[0] == entries[0] && whole[1..] == r;
      }
    }
  }


  /** Deleting a key keeps the remaining keys distinct. */
  lemma {:induction false} RemoveKeyDistinct(entries: seq<Arg>, key: string)
    requires DistinctKeys(entries)
    ensures DistinctKeys(RemoveKey(entries, key))
  {
    if entries != [] {
      var tail := entries[1..];
      assert DistinctKeys(tail);
      RemoveKeyDistinct(tail, key);
      RemoveKeyAsMap(tail, key, key);
      var r := RemoveKey(tail, key);
      if entries[0].key != key {
        assert entries[0].key !in Keys(tail);
        forall i, j | 0 <= i < j < |[entries[0]] + r|
          ensures ([entries[0]] + r)[i].key != ([entries[0]] + r)[j].key
        {
          assert ([entries[0]] + r)[j] == r[j - 1];
          if i == 0 {
            assert r[j - 1] in r;
            assert r[j - 1].key in Keys(r);
          } else {
            assert ([entries[0]] + r)[i] == r[i - 1];
            assert r[i - 1].key != r[j - 1].key;
          }
        }
      }
    }
  }

  lemma {:induction false} RemoveKeyAbsent(entries: seq<Arg>, key: string)
    requires key !in Keys(entries)
    ensures RemoveKey(entries, key) == entries
  {
    if entries != [] {
      assert Keys(entries[1..]) <= Keys(entries);
      RemoveKeyAbsent(entries[1..], key);
    }
  }

  lemma {:induction false} RemoveKeyAppend(a: seq<Arg>, b: seq<Arg>, key: string)
    ensures RemoveKey(a + b, key) == RemoveKey(a, key) + RemoveKey(b, key)
  {
    if a != [] {
      assert (a + b)[1..] == a[1..] + b;
      RemoveKeyAppend(a[1..], b, key);
    } else {
      assert a + b == b;
    }
  }

  lemma {:induction false} LookupAppend(a: seq<Arg>, b: seq<Arg>, key: string)
    requires key !in Keys(a)
    ensures Lookup(a + b, key) == Lookup(b, key)
  {
    if a != [] {
      assert (a + b)[1..] == a[1..] + b;
      assert Keys(a[1..]) <= Keys(a);
      LookupAppend(a[1..], b, key);
    } else {
      assert a + b == b;
    }
  }

  /**
   * The arguments object a call receives. The caller keeps a reference to it,
   * so the keys the request builder deletes disappear from the caller's object too.
   */
  class ArgsObject {
    var entries: seq<Arg>

    ghost predicate Valid()
      reads this
    {
      DistinctKeys(entries)
    }

    constructor (entries: seq<Arg>)
      requires DistinctKeys(entries)
      ensures Valid() && this.entries == entries
    {
      this.entries := entries;
    }

    /** `delete args[key]`. */
    method Delete(key: string)
      requires Valid()
      modifies this
      ensures Valid()
      ensures entries == RemoveKey(old(entries), key)
    {
      RemoveKeyDistinct(entries, key);
      entries := RemoveKey(entries, key);
    }
  }
}
