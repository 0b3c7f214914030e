/**
  MPI attributes: keyvals with reference counts, and the attributes that objects hold under
  them.  Callbacks of the user may fail at will.  A keyval lives exactly as long as it has not
  been freed or some object holds an attribute under it.
*/
module Attributes {
  import opened Collections
  import opened Sorting

  datatype Type = Communicator | Window | Datatype

  datatype Object = Object(kind: Type, id: int)

  datatype Keyval = Keyval(kind: Type, predefined: bool, refs: int)

  datatype Attr = Attr(value: int, sequence: int)

  /** A call of the delete function for an attribute. */
  datatype Call = Call(object: Object, key: int)

  datatype Code = Success | BadParam | NotFound | OutOfResource | Callback(error: int)

  type Hashes = map<Object, map<int, Attr>>

  // ----- who holds a key -----

  ghost function Holders(hash: Hashes, key: int): set<Object> {
    set o | o in hash && key in hash[o]
  }

  lemma HoldersOfOther(hash: Hashes, o: Object, m: map<int, Attr>, key: int)
    requires (o in hash && key in hash[o]) <==> key in m
    ensures Holders(hash[o := m], key) == Holders(hash, key)
  {
  }

  lemma HoldersMore(hash: Hashes, o: Object, m: map<int, Attr>, key: int)
    requires key in m && !(o in hash && key in hash[o])
    ensures |Holders(hash[o := m], key)| == |Holders(hash, key)| + 1
  {
    assert Holders(hash[o := m], key) == Holders(hash, key) + {o};
  }

  lemma HoldersLess(hash: Hashes, o: Object, m: map<int, Attr>, key: int)
    requires key !in m && o in hash && key in hash[o]
    ensures |Holders(hash[o := m], key)| == |Holders(hash, key)| - 1
  {
    assert Holders(hash, key) == Holders(hash[o := m], key) + {o};
  }

  lemma HolderExists(hash: Hashes, o: Object, key: int)
    requires o in hash && key in hash[o]
    ensures |Holders(hash, key)| >= 1
  {
    assert o in Holders(hash, key);
  }

  // ----- the invariant -----

  /** The creator's reference, while the keyval is owned, that is, not freed, and one for each holder. */
  ghost predicate Counted(keyvals: map<int, Keyval>, hash: Hashes, owned: set<int>, key: int)
    requires key in keyvals
  {
    keyvals[key].refs == (if key in owned then 1 else 0) + |Holders(hash, key)| && keyvals[key].refs > 0
  }

  /** What an object holds is known to the table of keyvals, with the object's type. */
  ghost predicate Known(keyvals: map<int, Keyval>, o: Object, m: map<int, Attr>) {
    forall k :: k in m ==> k in keyvals && keyvals[k].kind == o.kind
  }

  /** Sequence numbers tell in which order the attributes of an object were last set. */
  ghost predicate Stamped(m: map<int, Attr>, sequence: int) {
    && (forall k :: k in m ==> m[k].sequence < sequence)
    && (forall k, l :: k in m && l in m && k != l ==> m[k].sequence != m[l].sequence)
  }

  ghost predicate Inv(keyvals: map<int, Keyval>, used: set<int>, hash: Hashes, sequence: int, owned: set<int>) {
    && keyvals.Keys <= used && owned <= keyvals.Keys
    && (forall key :: key in keyvals ==> Counted(keyvals, hash, owned, key))
    && (forall o :: o in hash ==> Known(keyvals, o, hash[o]) && Stamped(hash[o], sequence))
  }

  /** OBJ_RELEASE: one reference less; the last one destroys the keyval and frees the key. */
  function Released(keyvals: map<int, Keyval>, key: int): map<int, Keyval>
    requires key in keyvals
  {
    var v := keyvals[key];
    if v.refs == 1 then keyvals - {key} else keyvals[key := v.(refs := v.refs - 1)]
  }

  /** OBJ_RETAIN when the object had no attribute under the key. */
  function Retained(keyvals: map<int, Keyval>, hash: Hashes, o: Object, key: int): map<int, Keyval> {
    if key in keyvals && !(o in hash && key in hash[o])
      then keyvals[key := keyvals[key].(refs := keyvals[key].refs + 1)] else keyvals
  }

  function Unmarked(keyvals: map<int, Keyval>, used: set<int>, key: int): set<int>
    requires key in keyvals
  {
    if keyvals[key].refs == 1 then used - {key} else used
  }

  /** A released keyval is gone only if nobody holds it. */
  lemma ReleaseInv(keyvals: map<int, Keyval>, used: set<int>, hash: Hashes, sequence: int, owned: set<int>,
                   hash': Hashes, owned': set<int>, key: int)
    requires Inv(keyvals, used, hash, sequence, owned) && key in keyvals && owned' <= keyvals.Keys
    requires forall k :: k in keyvals && k != key ==>
               (k in owned <==> k in owned') && Holders(hash', k) == Holders(hash, k)
    requires keyvals[key].refs - 1 == (if key in owned' then 1 else 0) + |Holders(hash', key)|
    requires forall o :: o in hash' ==> Known(keyvals, o, hash'[o]) && Stamped(hash'[o], sequence)
    ensures Inv(Released(keyvals, key), Unmarked(keyvals, used, key), hash', sequence, owned')
  {
    var after := Released(keyvals, key);
    forall k | k in after ensures Counted(after, hash', owned', k) {
      assert Counted(keyvals, hash, owned, k);
    }
    forall o | o in hash' ensures Known(after, o, hash'[o]) {
      forall k | k in hash'[o] ensures k in after && after[k].kind == o.kind {
        if k == key { HolderExists(hash', o, key); }
      }
    }
  }

  lemma DeleteInv(keyvals: map<int, Keyval>, used: set<int>, hash: Hashes, sequence: int, owned: set<int>, o: Object,
                  key: int)
    requires Inv(keyvals, used, hash, sequence, owned) && o in hash && key in hash[o]
    ensures key in keyvals
    ensures Inv(Released(keyvals, key), Unmarked(keyvals, used, key), hash[o := hash[o] - {key}], sequence, owned)
  {
    assert Known(keyvals, o, hash[o]) && Stamped(hash[o], sequence);
    var hash' := hash[o := hash[o] - {key}];
    assert Counted(keyvals, hash, owned, key);
    HoldersLess(hash, o, hash[o] - {key}, key);
    forall k | k in keyvals && k != key ensures Holders(hash', k) == Holders(hash, k) {
      HoldersOfOther(hash, o, hash[o] - {key}, k);
    }
    forall x | x in hash' ensures Known(keyvals, x, hash'[x]) && Stamped(hash'[x], sequence) {
      if x != o { assert Known(keyvals, x, hash[x]); }
    }
    ReleaseInv(keyvals, used, hash, sequence, owned, hash', owned, key);
  }

  lemma FreeInv(keyvals: map<int, Keyval>, used: set<int>, hash: Hashes, sequence: int, owned: set<int>, key: int)
    requires Inv(keyvals, used, hash, sequence, owned) && key in owned
    ensures key in keyvals && Inv(Released(keyvals, key), Unmarked(keyvals, used, key), hash, sequence, owned - {key})
  {
    assert Counted(keyvals, hash, owned, key);
    ReleaseInv(keyvals, used, hash, sequence, owned, hash, owned - {key}, key);
  }

  /** Freeing a keyval twice takes away a reference that belongs to a holder, and nothing can make up for it. */
  lemma FreeTwice(keyvals: map<int, Keyval>, used: set<int>, hash: Hashes, sequence: int, owned: set<int>, key: int,
                  used': set<int>, owned': set<int>)
    requires Inv(keyvals, used, hash, sequence, owned) && key in keyvals && key !in owned
    ensures !Inv(Released(keyvals, key), used', hash, sequence, owned')
  {
    assert Counted(keyvals, hash, owned, key);
    var after := Released(keyvals, key);
    var o := AnyHolder(hash, key);
    if key in after {
      assert !Counted(after, hash, owned', key);
    } else {
      assert !Known(after, o, hash[o]);
    }
  }

  /** A keyval lives exactly as long as it has not been freed or some object holds an attribute under it. */
  lemma LivesExactly(keyvals: map<int, Keyval>, used: set<int>, hash: Hashes, sequence: int, owned: set<int>, key: int)
    requires Inv(keyvals, used, hash, sequence, owned)
    ensures key in keyvals <==> key in owned || exists o :: o in hash && key in hash[o]
  {
    if key in keyvals && key !in owned {
      assert Counted(keyvals, hash, owned, key);
      var o := AnyHolder(hash, key);
    } else if o :| o in hash && key in hash[o] {
      assert Known(keyvals, o, hash[o]);
    }
  }

  lemma AnyHolder(hash: Hashes, key: int) returns (o: Object)
    requires |Holders(hash, key)| > 0
    ensures o in hash && key in hash[o]
  {
    assert Holders(hash, key) != {};
    o :| o in Holders(hash, key);
  }

  /** Setting an attribute, with one more reference if the object did not hold the key. */
  lemma SetInv(keyvals: map<int, Keyval>, used: set<int>, hash: Hashes, sequence: int, owned: set<int>, o: Object,
               key: int, value: int)
    requires Inv(keyvals, used, hash, sequence, owned) && key in keyvals && keyvals[key].kind == o.kind && o in hash
    ensures var v := keyvals[key];
            var after := if key in hash[o] then keyvals else keyvals[key := v.(refs := v.refs + 1)];
            Inv(after, used, hash[o := hash[o][key := Attr(value, sequence)]], sequence + 1, owned)
  {
    var v, m := keyvals[key], hash[o][key := Attr(value, sequence)];
    var after := if key in hash[o] then keyvals else keyvals[key := v.(refs := v.refs + 1)];
    var hash' := hash[o := m];
    forall k | k in after ensures Counted(after, hash', owned, k) {
      assert Counted(keyvals, hash, owned, k);
      if k == key && key !in hash[o] {
        HoldersMore(hash, o, m, key);
      } else {
        HoldersOfOther(hash, o, m, k);
      }
    }
    forall x | x in hash' ensures Known(after, x, hash'[x]) && Stamped(hash'[x], sequence + 1) {
      assert Known(keyvals, x, hash[x]) && Stamped(hash[x], sequence);
    }
  }

  lemma CreateInv(keyvals: map<int, Keyval>, used: set<int>, hash: Hashes, sequence: int, owned: set<int>, key: int,
                  kind: Type, predefined: bool)
    requires Inv(keyvals, used, hash, sequence, owned) && key !in keyvals
    ensures Inv(keyvals[key := Keyval(kind, predefined, 1)], used + {key}, hash, sequence, owned + {key})
    ensures forall o :: o in hash ==> key !in hash[o]
  {
    var after := keyvals[key := Keyval(kind, predefined, 1)];
    forall o | o in hash ensures key !in hash[o] && Known(after, o, hash[o]) {
      assert Known(keyvals, o, hash[o]);
    }
    assert Holders(hash, key) == {};
    forall k | k in after ensures Counted(after, hash, owned + {key}, k) {
      if k != key { assert Counted(keyvals, hash, owned, k); }
    }
  }

  // ----- order of the delete calls -----

  /** The keys of an object in the order in which they were last set. */
  ghost predicate InOrder(ks: seq<int>, m: map<int, Attr>) {
    && |ks| == |m| && (forall i :: 0 <= i < |ks| ==> ks[i] in m) && (forall k :: k in m ==> k in ks)
    && forall i, j :: 0 <= i < j < |ks| ==> m[ks[i]].sequence < m[ks[j]].sequence
  }

  const MAX_KEY: nat := 0x7FFF_FFFF

  class Registry {
    var keyvals: map<int, Keyval>
    /** key_bitmap */
    var used: set<int>
    /** The attribute tables of the objects that have one. */
    var hash: Hashes
    var sequence: int
    ghost var owned: set<int>
    /** The delete functions called so far. */
    var calls: seq<Call>

    ghost predicate Valid()
      reads this
    {
      Inv(keyvals, used, hash, sequence, owned)
    }

    constructor (reserved: set<int>)
      ensures Valid() && keyvals == map[] && used == reserved && hash == map[] && calls == []
    {
      keyvals, used, hash, sequence := map[], reserved, map[], 0;
      owned, calls := {}, [];
    }

    /** ompi_attr_create_keyval: a key that no object holds an attribute under. */
    method Create(kind: Type) returns (code: Code, key: int)
      requires Valid()
      modifies `keyvals, `used, `owned
      ensures Valid()
      ensures code == Success ==> key !in old(used) && keyvals == old(keyvals)[key := Keyval(kind, false, 1)]
      ensures code == Success ==> used == old(used) + {key} && forall o :: o in hash ==> key !in hash[o]
      ensures code == Success ==> owned == old(owned) + {key}
      ensures code == Success ==> 0 <= key < MAX_KEY && forall k :: 0 <= k < key ==> k in old(used)
      ensures code != Success ==> keyvals == old(keyvals) && used == old(used) && owned == old(owned)
      ensures code == Success <==> exists k :: 0 <= k < MAX_KEY && k !in old(used)
    {
      key := 0;
      while key < MAX_KEY && key in used
        invariant 0 <= key <= MAX_KEY && forall k :: 0 <= k < key ==> k in used
      {
        key := key + 1;
      }
      if key == MAX_KEY {
        return OutOfResource, -1;
      }
      CreateInv(keyvals, used, hash, sequence, owned, key, kind, false);
      used := used + {key};
      owned := owned + {key};
      keyvals := keyvals[key := Keyval(kind, false, 1)];
      code := Success;
    }

    /** OBJ_RELEASE of a keyval. */
    method Release(key: int)
      requires key in keyvals
      modifies `keyvals, `used
      ensures keyvals == Released(old(keyvals), key) && used == Unmarked(old(keyvals), old(used), key)
    {
      var v := keyvals[key];
      if v.refs == 1 {
        keyvals := keyvals - {key};
        used := used - {key};
      } else {
        keyvals := keyvals[key := v.(refs := v.refs - 1)];
      }
    }

    /** The check at the head of every operation. */
    ghost predicate Accepts(kind: Type, key: int, predefined: bool)
      reads `keyvals
    {
      key in keyvals && keyvals[key].kind == kind && (predefined || !keyvals[key].predefined)
    }

    /** ompi_attr_free_keyval: the counts stay right if and only if the keyval had not been freed before. */
    method Free(kind: Type, key: int, predefined: bool) returns (code: Code)
      requires Valid()
      modifies `keyvals, `used, `owned
      ensures code == (if old(Accepts(kind, key, predefined)) then Success else BadParam)
      ensures code == Success ==>
                keyvals == Released(old(keyvals), key) && used == Unmarked(old(keyvals), old(used), key)
      ensures code == Success ==> owned == old(owned) - {key} && (Valid() <==> key in old(owned))
      ensures code != Success ==> Valid() && keyvals == old(keyvals) && used == old(used) && owned == old(owned)
    {
      hide Inv;
      if key !in keyvals || keyvals[key].kind != kind || (!predefined && keyvals[key].predefined) {
        return BadParam;
      }
      if key in owned {
        FreeInv(keyvals, used, hash, sequence, owned, key);
      }
      ghost var was, wasUsed, wasOwned := keyvals, used, owned;
      Release(key);
      owned := owned - {key};
      if key !in wasOwned {
        FreeTwice(was, wasUsed, hash, sequence, wasOwned, key, used, owned);
      }
      code := Success;
    }

    /** set_value: an old attribute is deleted by the user's function first, whose result is `result`. */
    method Set(o: Object, key: int, value: int, predefined: bool, result: int) returns (code: Code)
      requires Valid()
      modifies `keyvals, `hash, `sequence, `calls
      ensures Valid()
      ensures !old(Accepts(o.kind, key, predefined)) <==> code == BadParam
      ensures code in {Success, BadParam, Callback(result)}
      ensures code == Success <==>
                old(Accepts(o.kind, key, predefined)) && (o in old(hash) && key in old(hash)[o] ==> result == 0)
      ensures code == Success ==> sequence == old(sequence) + 1 && keyvals == Retained(old(keyvals), old(hash), o, key)
      ensures code == Success ==>
                hash == old(hash)[o := Table(old(hash), o)[key := Attr(value, old(sequence))]]
      ensures code != Success ==> hash == old(hash) && sequence == old(sequence) && keyvals == old(keyvals)
      ensures calls == if old(Accepts(o.kind, key, predefined)) && o in old(hash) && key in old(hash)[o]
                then old(calls) + [Call(o, key)] else old(calls)
    {
      hide Inv;
      if key !in keyvals || keyvals[key].kind != o.kind || (!predefined && keyvals[key].predefined) {
        return BadParam;
      }
      if o !in hash {
        NewTable(keyvals, used, hash, sequence, owned, o);
        hash := hash[o := map[]];
      }
      var hadOld := false;
      if key in hash[o] {
        calls := calls + [Call(o, key)];
        if result != 0 {
          return Callback(result);
        }
        hadOld := true;
      }
      SetInv(keyvals, used, hash, sequence, owned, o, key, value);
      hash := hash[o := hash[o][key := Attr(value, sequence)]];
      sequence := sequence + 1;
      if !hadOld {
        var v := keyvals[key];
        keyvals := keyvals[key := v.(refs := v.refs + 1)];
      }
      code := Success;
    }

    /** ompi_attr_delete_impl */
    method Delete(o: Object, key: int, predefined: bool, result: int) returns (code: Code)
      requires Valid()
      modifies `keyvals, `used, `hash, `calls
      ensures Valid()
      ensures !(old(Accepts(o.kind, key, predefined)) && o in old(hash)) <==> code == BadParam
      ensures code == NotFound <==> old(Accepts(o.kind, key, predefined)) && o in old(hash) && key !in old(hash)[o]
      ensures code.Callback? <==>
                old(Accepts(o.kind, key, predefined)) && o in old(hash) && key in old(hash)[o] && result != 0
      ensures code in {Success, BadParam, NotFound, Callback(result)}
      ensures code == Success ==> hash == old(hash)[o := old(hash)[o] - {key}] && keyvals == Released(old(keyvals), key)
      ensures code == Success ==> used == Unmarked(old(keyvals), old(used), key) && owned == old(owned)
      ensures code != Success ==>
                hash == old(hash) && keyvals == old(keyvals) && used == old(used) && owned == old(owned)
      ensures calls == if code in {BadParam, NotFound} then old(calls) else old(calls) + [Call(o, key)]
    {
      hide Inv;
      if key !in keyvals || keyvals[key].kind != o.kind || (!predefined && keyvals[key].predefined) {
        return BadParam;
      }
      if o !in hash {
        return BadParam;
      }
      if key !in hash[o] {
        return NotFound;
      }
      calls := calls + [Call(o, key)];
      if result != 0 {
        return Callback(result);
      }
      DeleteInv(keyvals, used, hash, sequence, owned, o, key);
      hash := hash[o := hash[o] - {key}];
      Release(key);
      code := Success;
    }

    /** One round of the loop in ompi_attr_delete_all. */
    method DeleteNext(o: Object, ghost hash0: Hashes, keys: seq<int>, i: nat, result: int) returns (code: Code)
      requires Valid() && Undone(hash, hash0, o, keys, i + 1) && i < |keys|
      modifies `keyvals, `used, `hash, `calls
      ensures Valid() && calls == old(calls) + [Call(o, keys[i])]
      ensures code == (if result == 0 then Success else Callback(result))
      ensures Undone(hash, hash0, o, keys, if result == 0 then i else i + 1)
    {
      hide Inv, Undone;
      UndoneNext(hash, hash0, o, keys, i);
      KnownAt(keyvals, used, hash, sequence, owned, o, keys[i]);
      code := Delete(o, keys[i], true, result);
    }

    /** The loop in ompi_attr_delete_all. */
    method DeleteBackwards(o: Object, ghost hash0: Hashes, keys: seq<int>, results: int -> int)
      returns (code: Code, ghost n: nat)
      requires Valid() && Undone(hash, hash0, o, keys, |keys|)
      modifies `keyvals, `used, `hash, `calls
      ensures Valid() && n <= |keys| && calls == old(calls) + Backwards(o, keys, n)
      ensures code == Success ==> n == |keys| && AllPass(results, keys) && Undone(hash, hash0, o, keys, 0)
      ensures code != Success ==>
                0 < n && code == Callback(results(keys[|keys| - n])) && AllPass(results, keys[|keys| - n + 1..])
      ensures code != Success ==> results(keys[|keys| - n]) != 0
      ensures code != Success ==> Undone(hash, hash0, o, keys, |keys| - n + 1)
    {
      hide Inv, Undone, AllPass, Backwards;
      n := 0;
      BackwardsNone(o, keys);
      PassNone(results, keys);
      var i := |keys| - 1;
      code := Success;
      while i >= 0
        invariant -1 <= i < |keys| && n == |keys| - 1 - i && Valid() && Undone(hash, hash0, o, keys, i + 1)
        invariant code == Success
        invariant calls == old(calls) + Backwards(o, keys, n) && AllPass(results, keys[i+1..])
      {
        BackwardsNext(o, keys, n);
        code := DeleteNext(o, hash0, keys, i, results(keys[i]));
        n := n + 1;
        if code != Success {
          return;
        }
        PassNext(results, keys, i);
        i := i - 1;
      }
      assert keys[0..] == keys;
    }

    /**
      ompi_attr_delete_all: the delete functions are called in the reverse order of setting, up to
      the first that fails.
    */
    method DeleteAll(o: Object, results: int -> int) returns (code: Code, ghost ks: seq<int>, ghost n: nat)
      requires Valid()
      modifies `keyvals, `used, `hash, `calls
      ensures Valid() && (o !in old(hash) ==> code == Success && calls == old(calls) && hash == old(hash))
      ensures o in old(hash) ==> InOrder(ks, old(hash)[o]) && n <= |ks| && calls == old(calls) + Backwards(o, ks, n)
      ensures o in old(hash) && code == Success ==>
                n == |ks| && AllPass(results, ks) && Undone(hash, old(hash), o, ks, 0)
      ensures o in old(hash) && code != Success ==>
                0 < n && code == Callback(results(ks[|ks| - n])) && AllPass(results, ks[|ks| - n + 1..])
      ensures o in old(hash) && code != Success ==> results(ks[|ks| - n]) != 0
      ensures o in old(hash) ==> (code == Success <==> forall key :: key in old(hash)[o] ==> results(key) == 0)
      ensures o in old(hash) && code != Success ==> Undone(hash, old(hash), o, ks, |ks| - n + 1)
    {
      if o !in hash {
        return Success, [], 0;
      }
      StampedAt(keyvals, used, hash, sequence, owned, o);
      hide Inv, Undone, AllPass, Backwards, InOrder;
      var keys := SortKeys(hash[o]);
      ks := keys;
      NoneUndone(hash, o, ks);
      code, n := DeleteBackwards(o, hash, keys, results);
      PassesAll(results, keys, old(hash)[o], n, code == Success);
    }

    /** One round of the loop in ompi_attr_copy_all. */
    method CopyOne(o: Object, to: Object, key: int, copied: Copied, result: int) returns (code: Code)
      requires Valid() && to.kind == o.kind && to != o && o in hash && key in hash[o]
      modifies `keyvals, `hash, `sequence, `calls
      ensures Valid() && OthersSame(hash, old(hash), to)
      ensures code == Success <==> Passes(copied, key in Table(old(hash), to), result)
      ensures code != Success ==> code == Failure(copied, result)
      ensures code == Success ==> Gets(Table(hash, to), Table(old(hash), to), key, copied)
    {
      hide Inv;
      KnownAt(keyvals, used, hash, sequence, owned, o, key);
      if copied.err != 0 {
        return Callback(copied.err);
      }
      code := Success;
      if copied.flag {
        code := Set(to, key, copied.value, true, result);
      }
    }

    /** ompi_attr_copy_all: the copy functions decide which attributes the new object gets. */
    method CopyAll(o: Object, to: Object, copy: int -> Copied, results: int -> int) returns (code: Code)
      requires Valid() && to.kind == o.kind && to != o
      modifies `keyvals, `hash, `sequence, `calls
      ensures Valid() && (o !in old(hash) ==> code == Success && hash == old(hash)) && OthersSame(hash, old(hash), to)
      ensures o in old(hash) && code == Success ==>
                CopyOf(Table(hash, to), Table(old(hash), to), old(hash)[o].Keys, copy)
      ensures o in old(hash) ==> (code == Success <==>
                forall key :: key in old(hash)[o] ==> Passes(copy(key), key in Table(old(hash), to), results(key)))
      ensures o in old(hash) && code != Success ==>
                exists key :: key in old(hash)[o] && Fails(copy(key), key in Table(old(hash), to), results(key), code)
    {
      hide Inv, CopyOf, Gets, Table, Passes, Fails, Failure;
      if o !in hash {
        return Success;
      }
      ghost var m, before := hash[o], Table(hash, to);
      var left := hash[o].Keys;
      assert m.Keys - left == {};
      CopyNone(before, copy);
      while left != {}
        invariant Valid() && OthersSame(hash, old(hash), to) && left <= m.Keys
        invariant CopyOf(Table(hash, to), before, m.Keys - left, copy)
        invariant forall k :: k in m && k !in left ==> Passes(copy(k), k in before, results(k))
        decreases |left|
      {
        var key := AnyOf(left);
        ghost var was := Table(hash, to);
        NotCopied(was, before, m.Keys - left, copy, key);
        code := CopyOne(o, to, key, copy(key), results(key));
        if code != Success {
          FailsWith(copy(key), key in before, results(key), code);
          return;
        }
        CopyNext(Table(hash, to), was, before, m.Keys - left, key, copy);
        assert m.Keys - (left - {key}) == m.Keys - left + {key};
        left := left - {key};
      }
      assert m.Keys - left == m.Keys;
      code := Success;
    }
  }

  /** Neither the copy function nor, for an attribute that is replaced, the delete function refuses. */
  ghost predicate Passes(copied: Copied, held: bool, result: int) {
    copied.err == 0 && (copied.flag && held ==> result == 0)
  }

  /** The error that is reported. */
  function Failure(copied: Copied, result: int): Code {
    Callback(if copied.err != 0 then copied.err else result)
  }

  ghost predicate Fails(copied: Copied, held: bool, result: int, code: Code) {
    !Passes(copied, held, result) && code == Failure(copied, result)
  }

  lemma FailsWith(copied: Copied, held: bool, result: int, code: Code)
    requires !Passes(copied, held, result) && code == Failure(copied, result)
    ensures Fails(copied, held, result, code)
  {
  }

  lemma NotCopied(after: map<int, Attr>, before: map<int, Attr>, keys: set<int>, copy: int -> Copied, key: int)
    requires CopyOf(after, before, keys, copy) && key !in keys
    ensures key in after <==> key in before
  {
  }

  /** No delete function fails exactly if the loop ran to its end. */
  lemma PassesAll(results: int -> int, keys: seq<int>, m: map<int, Attr>, n: nat, ok: bool)
    requires InOrder(keys, m) && n <= |keys| && (ok ==> AllPass(results, keys))
    requires !ok ==> 0 < n && results(keys[|keys| - n]) != 0
    ensures ok <==> forall key :: key in m ==> results(key) == 0
  {
    if ok {
      forall key | key in m ensures results(key) == 0 { assert key in keys; }
    } else {
      var key := keys[|keys| - n];
      assert key in m && results(key) != 0;
    }
  }

  ghost predicate OthersSame(hash: Hashes, hash0: Hashes, to: Object) {
    forall x :: x != to ==> (x in hash <==> x in hash0) && (x in hash0 && x in hash ==> hash[x] == hash0[x])
  }

  /** The attribute of the key is copied, or nothing changes. */
  ghost predicate Gets(after: map<int, Attr>, was: map<int, Attr>, key: int, copied: Copied) {
    if copied.flag then key in after && after == was[key := after[key]] && after[key].value == copied.value
      else after == was
  }

  /** What an object holds, nothing if it has no table. */
  function Table(hash: Hashes, o: Object): map<int, Attr> {
    if o in hash then hash[o] else map[]
  }

  /** after is before with exactly the attributes of the given keys that were to be copied, with their new values. */
  ghost predicate CopyOf(after: map<int, Attr>, before: map<int, Attr>, keys: set<int>, copy: int -> Copied) {
    && (forall k :: k in after <==> k in before || (k in keys && copy(k).flag))
    && (forall k :: k in after && k in keys && copy(k).flag ==> after[k].value == copy(k).value)
    && (forall k :: k in after && !(k in keys && copy(k).flag) ==> after[k] == before[k])
  }

  lemma CopyNext(after: map<int, Attr>, was: map<int, Attr>, before: map<int, Attr>, keys: set<int>, key: int,
                 copy: int -> Copied)
    requires CopyOf(was, before, keys, copy) && key !in keys && Gets(after, was, key, copy(key))
    ensures CopyOf(after, before, keys + {key}, copy)
  {
  }

  lemma CopyNone(m: map<int, Attr>, copy: int -> Copied)
    ensures CopyOf(m, m, {}, copy)
  {
  }

  /** A keyval that is freed twice while an object holds it: the key is free again although the object still uses it. */
  method FreedTwice() returns (r: Registry, o: Object, key: int)
    ensures fresh(r) && !r.Valid() && o in r.hash && key in r.hash[o] && key !in r.keyvals && key !in r.used
  {
    r := new Registry({});
    hide Inv;
    assert 0 !in r.used;
    var code;
    code, key := r.Create(Communicator);
    o := Object(Communicator, 1);
    code := r.Set(o, key, 5, false, 0);
    code := r.Free(Communicator, key, false);
    code := r.Free(Communicator, key, false);
  }

  datatype Copied = Copied(err: int, flag: bool, value: int)

  /** The last n keys, last first. */
  ghost function Backwards(o: Object, ks: seq<int>, n: nat): seq<Call>
    requires n <= |ks|
  {
    if n == 0 then [] else Backwards(o, ks, n - 1) + [Call(o, ks[|ks| - n])]
  }

  lemma BackwardsNone(o: Object, ks: seq<int>)
    ensures Backwards(o, ks, 0) == []
  {
  }

  lemma BackwardsNext(o: Object, ks: seq<int>, n: nat)
    requires n < |ks|
    ensures Backwards(o, ks, n + 1) == Backwards(o, ks, n) + [Call(o, ks[|ks| - 1 - n])]
  {
  }

  /** The attributes under the given keys. */
  ghost function Kept(m: map<int, Attr>, ks: seq<int>): map<int, Attr> {
    map k | k in m && k in ks :: m[k]
  }

  ghost predicate AllPass(results: int -> int, ks: seq<int>) {
    forall i :: 0 <= i < |ks| ==> results(ks[i]) == 0
  }

  /** Only the first i of the object's attributes are left, and no other object is touched. */
  ghost predicate Undone(hash: Hashes, hash0: Hashes, o: Object, ks: seq<int>, i: nat) {
    && o in hash && o in hash0 && InOrder(ks, hash0[o]) && i <= |ks| && hash[o] == Kept(hash0[o], ks[..i])
    && forall x :: x in hash && x != o ==> x in hash0 && hash[x] == hash0[x]
  }

  lemma PassNone(results: int -> int, ks: seq<int>)
    ensures AllPass(results, ks[|ks|..])
  {
  }

  lemma NoneUndone(hash: Hashes, o: Object, ks: seq<int>)
    requires o in hash && InOrder(ks, hash[o])
    ensures Undone(hash, hash, o, ks, |ks|)
  {
    assert ks[..|ks|] == ks;
    forall k | k in hash[o] ensures k in ks {
    }
    assert Kept(hash[o], ks) == hash[o];
  }

  lemma KeptNext(m: map<int, Attr>, ks: seq<int>, i: nat)
    requires i < |ks| && ks[i] in m && ks[i] !in ks[..i]
    ensures ks[i] in Kept(m, ks[..i+1]) && Kept(m, ks[..i+1]) - {ks[i]} == Kept(m, ks[..i])
  {
    assert ks[..i+1] == ks[..i] + [ks[i]];
  }

  lemma NotBefore(ks: seq<int>, m: map<int, Attr>, i: nat)
    requires InOrder(ks, m) && i < |ks|
    ensures ks[i] in m && ks[i] !in ks[..i]
  {
  }

  lemma UndoneNext(hash: Hashes, hash0: Hashes, o: Object, ks: seq<int>, i: nat)
    requires Undone(hash, hash0, o, ks, i + 1)
    ensures i < |ks| && o in hash && ks[i] in hash[o] && Undone(hash[o := hash[o] - {ks[i]}], hash0, o, ks, i)
  {
    hide Kept, InOrder;
    NotBefore(ks, hash0[o], i);
    KeptNext(hash0[o], ks, i);
  }

  lemma PassNext(results: int -> int, ks: seq<int>, i: nat)
    requires i < |ks| && AllPass(results, ks[i+1..]) && results(ks[i]) == 0
    ensures AllPass(results, ks[i..])
  {
    assert ks[i..] == [ks[i]] + ks[i+1..];
  }

  lemma StampedAt(keyvals: map<int, Keyval>, used: set<int>, hash: Hashes, sequence: int, owned: set<int>, o: Object)
    requires Inv(keyvals, used, hash, sequence, owned) && o in hash
    ensures Stamped(hash[o], sequence)
  {
  }

  lemma KnownAt(keyvals: map<int, Keyval>, used: set<int>, hash: Hashes, sequence: int, owned: set<int>, o: Object,
                key: int)
    requires Inv(keyvals, used, hash, sequence, owned) && o in hash && key in hash[o]
    ensures key in keyvals && keyvals[key].kind == o.kind
  {
    assert Known(keyvals, o, hash[o]);
  }

  method ListKeys(m: map<int, Attr>) returns (ks: seq<int>)
    ensures NoDup(ks) && |ks| == |m| && forall k :: k in ks <==> k in m
  {
    var left := m.Keys;
    ks := [];
    while left != {}
      invariant left <= m.Keys && |ks| + |left| == |m| && NoDup(ks)
      invariant forall k :: k in ks <==> k in m && k !in left
      decreases |left|
    {
      var key := AnyOf(left);
      assert key !in ks;
      ks, left := ks + [key], left - {key};
    }
  }

  /** qsort with compare_attr_sequence. */
  method SortKeys(m: map<int, Attr>) returns (ks: seq<int>)
    requires forall k, l :: k in m && l in m && k != l ==> m[k].sequence != m[l].sequence
    ensures InOrder(ks, m)
  {
    var listed := ListKeys(m);
    ks := SortBy(listed, (k: int, l: int) => k in m && l in m && m[k].sequence <= m[l].sequence);
    SameElements(ks, listed);
    StaysDistinct(listed, ks);
    assert forall i :: 0 <= i < |ks| ==> ks[i] in listed;
  }

  lemma NewTable(keyvals: map<int, Keyval>, used: set<int>, hash: Hashes, sequence: int, owned: set<int>, o: Object)
    requires Inv(keyvals, used, hash, sequence, owned) && o !in hash
    ensures Inv(keyvals, used, hash[o := map[]], sequence, owned)
  {
    forall k | k in keyvals ensures Counted(keyvals, hash[o := map[]], owned, k) {
      assert Counted(keyvals, hash, owned, k);
      HoldersOfOther(hash, o, map[], k);
    }
  }
}
