/**
 * LevelDB as the engine relies on it: a map from keys to values that applies a batch of
 * puts atomically and iterates over a range of keys in bytewise order, on a snapshot.
 */
module Store {
  import opened Bytes
  import opened Wrappers

  type KV = map<bytes, bytes>

  datatype Put = Put(key: bytes, value: bytes)

  /** The effect of the puts of a batch, in the order they were added. */
  function Apply(kv: KV, puts: seq<Put>): KV {
    if puts == [] then kv
    else
      var last := puts[|puts| - 1];
      Apply(kv, puts[..|puts| - 1])[last.key := last.value]
  }

  lemma {:induction false} ApplyConcat(kv: KV, a: seq<Put>, b: seq<Put>)
    ensures Apply(kv, a + b) == Apply(Apply(kv, a), b)
  {
    if b == [] {
      assert a + b == a;
    } else {
      assert (a + b)[..|a + b| - 1] == a + b[..|b| - 1];
      ApplyConcat(kv, a, b[..|b| - 1]);
    }
  }

  lemma {:induction false} ApplyKeys(kv: KV, puts: seq<Put>, key: bytes)
    ensures key in Apply(kv, puts) <==> key in kv || exists p :: p in puts && p.key == key
    ensures key in Apply(kv, puts) ==>
              (key in kv && Apply(kv, puts)[key] == kv[key]) ||
              exists p :: p in puts && p.key == key && Apply(kv, puts)[key] == p.value
  {
    if puts != [] {
      var front, last := puts[..|puts| - 1], puts[|puts| - 1];
      ApplyKeys(kv, front, key);
      assert last in puts;
      assert forall p :: p in puts <==> p in front || p == last;
    }
  }

  // ---------------------------------------------------------------- sorted iteration

  ghost predicate Sorted(keys: seq<bytes>) {
    forall i, j :: 0 <= i < j < |keys| ==> Less(keys[i], keys[j])
  }

  ghost predicate IsLeast(k: bytes, s: set<bytes>) {
    k in s && forall o :: o in s ==> AtMost(k, o)
  }

  lemma {:induction false} LeastExists(s: set<bytes>)
    requires s != {}
    ensures exists k :: IsLeast(k, s)
  {
    var x :| x in s;
    var rest := s - {x};
    assert forall o :: o in s ==> o == x || o in rest;
    if rest == {} {
      assert IsLeast(x, s);
    } else {
      LeastExists(rest);
      var k :| IsLeast(k, rest);
      LessTotal(x, k);
      if Less(x, k) {
        forall o | o in s ensures AtMost(x, o) {
          if o != x {
            assert o in rest && AtMost(k, o);
            if o != k { LessTransitive(x, k, o); }
          }
        }
        assert IsLeast(x, s);
      } else {
        assert IsLeast(k, s);
      }
    }
  }

  /** The keys of a set in bytewise order. */
  ghost function SortedKeys(s: set<bytes>): (keys: seq<bytes>)
    ensures Sorted(keys)
    ensures forall k :: k in keys <==> k in s
  {
    if s == {} then []
    else
      LeastExists(s);
      var k :| IsLeast(k, s);
      var rest := SortedKeys(s - {k});
      assert forall o :: o in rest ==> Less(k, o);
      [k] + rest
  }

  /** There is only one way to sort: order and contents determine the sequence. */
  lemma {:induction false} SortedUnique(a: seq<bytes>, b: seq<bytes>)
    requires Sorted(a) && Sorted(b)
    requires forall k :: k in a <==> k in b
    ensures a == b
  {
    assert a != [] ==> a[0] in a;
    assert b != [] ==> b[0] in b;
    if a != [] {
      if a[0] != b[0] {
        LessAsymmetric(a[0], b[0]);
      }
      LessIrreflexive(a[0]);
      assert forall k :: k in a[1..] <==> k in a && k != a[0];
      assert forall k :: k in b[1..] <==> k in b && k != b[0];
      SortedUnique(a[1..], b[1..]);
    }
  }

  /** What an iterator over util.BytesPrefix(prefix) yields. */
  ghost function RangeKeys(kv: KV, prefix: bytes): seq<bytes> {
    SortedKeys(set k | k in kv && InRange(prefix, k))
  }

  /** The entries whose keys can be read. */
  function Without(kv: KV, bad: set<bytes>): KV {
    map k | k in kv && k !in bad :: kv[k]
  }

  class DB {
    var kv: KV
    /** What the storage does: lookups of these keys fail, and iterators fail after so many keys. */
    var badKeys: set<bytes>
    var keysRead: Option<nat>

    constructor ()
      ensures kv == map[] && badKeys == {} && keysRead == None
    {
      kv, badKeys, keysRead := map[], {}, None;
    }

    ghost function Readable(): KV
      reads this
    {
      Without(kv, badKeys)
    }

    /** A lookup that fails and one that finds nothing look the same to the engine. */
    method Get(key: bytes) returns (value: Option<bytes>)
      ensures value == if key in Readable() then Some(Readable()[key]) else None
    {
      value := if key in kv && key !in badKeys then Some(kv[key]) else None;
    }

    /** Writes the whole batch or, when the storage fails, none of it. */
    method WriteBatch(batch: seq<Put>, storageOk: bool) returns (ok: bool)
      modifies this`kv
      ensures ok == storageOk
      ensures kv == if ok then Apply(old(kv), batch) else old(kv)
    {
      ok := storageOk;
      if ok {
        var i := 0;
        while i < |batch|
          invariant 0 <= i <= |batch|
          invariant kv == Apply(old(kv), batch[..i])
        {
          kv := kv[batch[i].key := batch[i].value];
          i := i + 1;
          assert batch[..i][..i - 1] == batch[..i - 1];
        }
        assert batch[..i] == batch;
      }
    }

    /** The keys a new iterator over BytesPrefix(prefix) yields, a snapshot, and whether it fails after them. */
    method NewIterator(prefix: bytes) returns (keys: seq<bytes>, failing: bool)
      ensures failing == (keysRead.Some? && keysRead.value < |RangeKeys(kv, prefix)|)
      ensures keys == if failing then RangeKeys(kv, prefix)[..keysRead.value] else RangeKeys(kv, prefix)
    {
      keys := KeysInOrder(prefix);
      failing := keysRead.Some? && keysRead.value < |keys|;
      if failing {
        keys := keys[..keysRead.value];
      }
    }

    method KeysInOrder(prefix: bytes) returns (keys: seq<bytes>)
      ensures keys == RangeKeys(kv, prefix)
    {
      var todo := set k | k in kv && InRange(prefix, k);
      ghost var all := todo;
      keys := [];
      while todo != {}
        invariant todo <= all
        invariant forall k :: k in keys <==> k in all && k !in todo
        invariant Sorted(keys)
        invariant forall i, k :: 0 <= i < |keys| && k in todo ==> Less(keys[i], k)
        decreases |todo|
      {
        LeastExists(todo);
        var next :| next in todo && forall o :: o in todo ==> AtMost(next, o);
        todo := todo - {next};
        assert forall o :: o in todo ==> AtMost(next, o) && o != next;
        assert forall o :: o in todo ==> Less(next, o);
        keys := keys + [next];
      }
      SortedUnique(keys, SortedKeys(all));
    }
  }
}
