/** Attribute caching: keyvals with reference counts, keys drawn from a bitmap, and attributes on
    objects whose copy and delete callbacks may fail. */
module Attributes {

  /** COMM_ATTR, TYPE_ATTR and WIN_ATTR. */
  datatype Kind = Comm | Type | Win

  /** An entry of keyval_hash: its object's reference count, and whether OMPI_KEYVAL_PREDEFINED
      is set. */
  datatype Keyval = Keyval(kind: Kind, predefined: bool, refs: nat)

  datatype Attr = Attr(value: int, sequence: nat)

  datatype Object = Object(kind: Kind, attrs: map<nat, Attr>)

  datatype Status = Success | BadParam | NotFound | SysResource | CallbackFailed(err: int)

  /** What a copy callback decides. */
  datatype CopyResult = CopyFailed(err: int) | Skip | Copy(value: int)

  type Keyvals = map<nat, Keyval>
  type Objects = map<nat, Object>

  // ---------------------------------------------------------------------------
  // The invariant, on values
  // ---------------------------------------------------------------------------

  /** The objects that carry an attribute with `key`. */
  function Carriers(objects: Objects, key: nat): set<nat> {
    set o | o in objects && key in objects[o].attrs
  }

  /** The count a keyval should have: one for the user until it is freed, one for every object
      that carries it. */
  function Due(objects: Objects, freed: set<nat>, key: nat): nat {
    (if key in freed then 0 else 1) + |Carriers(objects, key)|
  }

  ghost predicate CountOk(keyvals: Keyvals, objects: Objects, freed: set<nat>, key: nat)
    requires key in keyvals
  {
    keyvals[key].refs == Due(objects, freed, key) && keyvals[key].refs > 0
  }

  ghost predicate Counted(keyvals: Keyvals, objects: Objects, freed: set<nat>) {
    forall key :: key in keyvals ==> CountOk(keyvals, objects, freed, key)
  }

  /** A key is in the hash exactly when its bit is set. */
  ghost predicate KeysOk(keyvals: Keyvals, bitmap: set<nat>, freed: set<nat>, maxKey: nat) {
    keyvals.Keys == bitmap && freed <= bitmap && forall key :: key in bitmap ==> key < maxKey
  }

  /** An object's attributes have live keyvals of the object's kind. */
  ghost predicate Typed(keyvals: Keyvals, o: Object) {
    forall key :: key in o.attrs ==> key in keyvals && keyvals[key].kind == o.kind
  }

  /** They were set at different times. */
  ghost predicate Ordered(o: Object, sequence: nat) {
    && (forall key :: key in o.attrs ==> o.attrs[key].sequence < sequence)
    && forall j, k :: j in o.attrs && k in o.attrs && j != k ==> o.attrs[j].sequence != o.attrs[k].sequence
  }

  ghost predicate ObjectsOk(keyvals: Keyvals, objects: Objects, sequence: nat) {
    forall o :: o in objects ==> Typed(keyvals, objects[o]) && Ordered(objects[o], sequence)
  }

  function WithAttr(objects: Objects, o: nat, key: nat, a: Attr): Objects
    requires o in objects
  {
    objects[o := objects[o].(attrs := objects[o].attrs[key := a])]
  }

  function WithoutAttr(objects: Objects, o: nat, key: nat): Objects
    requires o in objects
  {
    objects[o := objects[o].(attrs := objects[o].attrs - {key})]
  }

  lemma {:induction false} CarriersSet(objects: Objects, o: nat, key: nat, a: Attr, k: nat)
    requires o in objects
    ensures Carriers(WithAttr(objects, o, key, a), k) == Carriers(objects, k) + (if k == key then {o} else {})
  {
  }

  lemma {:induction false} CarriersRemove(objects: Objects, o: nat, key: nat, k: nat)
    requires o in objects
    ensures Carriers(WithoutAttr(objects, o, key), k) == Carriers(objects, k) - (if k == key then {o} else {})
  {
  }

  /** OBJ_RETAIN and OBJ_RELEASE on a keyval; the destructor removes the key. */
  function Retained(keyvals: Keyvals, key: nat): Keyvals
    requires key in keyvals
  {
    keyvals[key := keyvals[key].(refs := keyvals[key].refs + 1)]
  }

  function Released(keyvals: Keyvals, key: nat): Keyvals
    requires key in keyvals && keyvals[key].refs > 0
  {
    if keyvals[key].refs == 1 then keyvals - {key}
    else keyvals[key := keyvals[key].(refs := keyvals[key].refs - 1)]
  }

  /** The key, if releasing it was the last of its counts. */
  function Gone(keyvals: Keyvals, key: nat): set<nat>
    requires key in keyvals && keyvals[key].refs > 0
  {
    if keyvals[key].refs == 1 then {key} else {}
  }

  lemma {:induction false} ReleaseKeysOk(keyvals: Keyvals, bitmap: set<nat>, freed: set<nat>, maxKey: nat, key: nat)
    requires KeysOk(keyvals, bitmap, freed, maxKey) && key in keyvals && keyvals[key].refs > 0
    ensures var (left, gone) := (Released(keyvals, key), Gone(keyvals, key));
            KeysOk(left, bitmap - gone, freed - gone, maxKey)
  {
    assert Released(keyvals, key).Keys == keyvals.Keys - Gone(keyvals, key);
  }

  ghost predicate AllOk(keyvals: Keyvals, bitmap: set<nat>, freed: set<nat>, maxKey: nat, objects: Objects, sequence: nat) {
    match (bitmap, freed)
    case (bits, out) => KeysOk(keyvals, bits, out, maxKey) && Counted(keyvals, objects, out) && ObjectsOk(keyvals, objects, sequence)
  }

  lemma {:induction false} NobodyCarries(keyvals: Keyvals, objects: Objects, sequence: nat, key: nat)
    requires ObjectsOk(keyvals, objects, sequence) && key !in keyvals
    ensures Carriers(objects, key) == {}
  {
    forall o | o in objects
      ensures key !in objects[o].attrs
    {
      assert Typed(keyvals, objects[o]);
    }
  }

  lemma {:induction false} CreateKeeps(keyvals: Keyvals, objects: Objects, freed: set<nat>, sequence: nat, key: nat, kv: Keyval)
    requires Counted(keyvals, objects, freed) && ObjectsOk(keyvals, objects, sequence)
    requires key !in keyvals && key !in freed && kv.refs == 1
    ensures Counted(keyvals[key := kv], objects, freed) && ObjectsOk(keyvals[key := kv], objects, sequence)
  {
    NobodyCarries(keyvals, objects, sequence, key);
    var more := keyvals[key := kv];
    forall k | k in more
      ensures CountOk(more, objects, freed, k)
    {
      assert k != key ==> CountOk(keyvals, objects, freed, k);
    }
    forall o | o in objects
      ensures Typed(keyvals[key := kv], objects[o])
    {
      assert Typed(keyvals, objects[o]);
    }
  }

  /** One count less is right for every other key, and for `key` if it was due. */
  lemma {:induction false} ReleaseKeeps(keyvals: Keyvals, objects: Objects, freed: set<nat>, after: Objects, freedAfter: set<nat>, key: nat)
    requires key in keyvals && Counted(keyvals, objects, freed)
    requires Due(objects, freed, key) == Due(after, freedAfter, key) + 1
    requires forall k :: k != key ==> Due(after, freedAfter, k) == Due(objects, freed, k)
    ensures keyvals[key].refs > 0 && Counted(Released(keyvals, key), after, freedAfter - Gone(keyvals, key))
    ensures key in Released(keyvals, key) <==> Due(after, freedAfter, key) > 0
  {
    assert CountOk(keyvals, objects, freed, key);
    var left := Released(keyvals, key);
    var rest := freedAfter - Gone(keyvals, key);
    forall k | k in left
      ensures CountOk(left, after, rest, k)
    {
      assert k != key ==> CountOk(keyvals, objects, freed, k);
    }
  }

  lemma {:induction false} ReleaseTyped(keyvals: Keyvals, objects: Objects, sequence: nat, after: Objects, key: nat)
    requires key in keyvals && keyvals[key].refs > 0 && ObjectsOk(keyvals, objects, sequence)
    requires after.Keys == objects.Keys
    requires forall o :: o in after ==> after[o] == objects[o] || after[o] == objects[o].(attrs := objects[o].attrs - {key})
    requires key !in Released(keyvals, key) ==> Carriers(after, key) == {}
    ensures ObjectsOk(Released(keyvals, key), after, sequence)
  {
    var left := Released(keyvals, key);
    forall o | o in after
      ensures Typed(left, after[o]) && Ordered(after[o], sequence)
    {
      assert Typed(keyvals, objects[o]) && Ordered(objects[o], sequence);
      if key in after[o].attrs {
        assert o in Carriers(after, key);
      }
    }
  }

  lemma {:induction false} NewCarrier(keyvals: Keyvals, objects: Objects, freed: set<nat>, o: nat, key: nat, a: Attr)
    requires Counted(keyvals, objects, freed) && o in objects && key in keyvals && key !in objects[o].attrs
    ensures Counted(Retained(keyvals, key), WithAttr(objects, o, key, a), freed)
  {
    var (after, counts) := (WithAttr(objects, o, key, a), Retained(keyvals, key));
    forall k | k in counts
      ensures CountOk(counts, after, freed, k)
    {
      CarriersSet(objects, o, key, a, k);
      assert CountOk(keyvals, objects, freed, k);
      assert o !in Carriers(objects, key);
    }
  }

  lemma {:induction false} SameCarriers(keyvals: Keyvals, objects: Objects, freed: set<nat>, o: nat, key: nat, a: Attr)
    requires Counted(keyvals, objects, freed) && o in objects && key in objects[o].attrs
    ensures Counted(keyvals, WithAttr(objects, o, key, a), freed)
  {
    var after := WithAttr(objects, o, key, a);
    forall k | k in keyvals
      ensures CountOk(keyvals, after, freed, k)
    {
      CarriersSet(objects, o, key, a, k);
      assert Carriers(after, k) == Carriers(objects, k);
      assert CountOk(keyvals, objects, freed, k);
    }
  }

  lemma {:induction false} SetTyped(keyvals: Keyvals, counts: Keyvals, objects: Objects, sequence: nat, o: nat, key: nat, value: int)
    requires ObjectsOk(keyvals, objects, sequence) && o in objects
    requires key in keyvals && keyvals[key].kind == objects[o].kind
    requires counts.Keys == keyvals.Keys && forall k :: k in keyvals ==> counts[k].kind == keyvals[k].kind
    ensures ObjectsOk(counts, WithAttr(objects, o, key, Attr(value, sequence)), sequence + 1)
  {
    var after := WithAttr(objects, o, key, Attr(value, sequence));
    forall p | p in after
      ensures Typed(counts, after[p]) && Ordered(after[p], sequence + 1)
    {
      assert Typed(keyvals, objects[p]) && Ordered(objects[p], sequence);
    }
  }

  /** A new attribute is one more carrier; a replaced one is not. */
  lemma {:induction false} SetKeeps(keyvals: Keyvals, objects: Objects, freed: set<nat>, sequence: nat, o: nat, key: nat, value: int)
    requires Counted(keyvals, objects, freed) && ObjectsOk(keyvals, objects, sequence)
    requires o in objects && key in keyvals && keyvals[key].kind == objects[o].kind
    ensures var after := WithAttr(objects, o, key, Attr(value, sequence));
            var counts := if key in objects[o].attrs then keyvals else Retained(keyvals, key);
            Counted(counts, after, freed) && ObjectsOk(counts, after, sequence + 1)
  {
    if key in objects[o].attrs {
      SameCarriers(keyvals, objects, freed, o, key, Attr(value, sequence));
      SetTyped(keyvals, keyvals, objects, sequence, o, key, value);
    } else {
      NewCarrier(keyvals, objects, freed, o, key, Attr(value, sequence));
      SetTyped(keyvals, Retained(keyvals, key), objects, sequence, o, key, value);
    }
  }

  /** Removing an attribute and releasing its keyval. */
  lemma {:induction false} DeleteKeeps(keyvals: Keyvals, objects: Objects, freed: set<nat>, sequence: nat, o: nat, key: nat)
    requires Counted(keyvals, objects, freed) && ObjectsOk(keyvals, objects, sequence)
    requires o in objects && key in keyvals && key in objects[o].attrs
    ensures keyvals[key].refs > 0
    ensures var (after, left) := (WithoutAttr(objects, o, key), Released(keyvals, key));
            Counted(left, after, freed - Gone(keyvals, key)) && ObjectsOk(left, after, sequence)
  {
    var after := WithoutAttr(objects, o, key);
    assert CountOk(keyvals, objects, freed, key);
    assert o in Carriers(objects, key);
    CarriersRemove(objects, o, key, key);
    forall k | k != key
      ensures Due(after, freed, k) == Due(objects, freed, k)
    {
      CarriersRemove(objects, o, key, k);
    }
    ReleaseKeeps(keyvals, objects, freed, after, freed, key);
    ReleaseTyped(keyvals, objects, sequence, after, key);
  }

  /** What operations that create and free nothing leave of the keyvals: a key goes only when the
      user has freed it, and the others are as before but for their counts. */
  ghost predicate Settled(was: Keyvals, wasFreed: set<nat>, now: Keyvals, freed: set<nat>) {
    match (was, freed)
    case (before, out) =>
    && now.Keys <= before.Keys && out == wasFreed * now.Keys
    && (forall k :: k in now ==> now[k] == before[k].(refs := now[k].refs))
    && forall k :: k in before && k !in now ==> k in wasFreed
  }

  lemma {:induction false} SettledTwice(a: Keyvals, fa: set<nat>, b: Keyvals, fb: set<nat>, c: Keyvals, fc: set<nat>)
    requires Settled(a, fa, b, fb) && Settled(b, fb, c, fc)
    ensures Settled(a, fa, c, fc)
  {
  }

  lemma {:induction false} NothingSettles(keyvals: Keyvals, freed: set<nat>)
    requires freed <= keyvals.Keys
    ensures Settled(keyvals, freed, keyvals, freed)
  {
  }

  lemma {:induction false} RetainSettles(keyvals: Keyvals, freed: set<nat>, key: nat)
    requires freed <= keyvals.Keys && key in keyvals
    ensures Settled(keyvals, freed, Retained(keyvals, key), freed)
  {
  }

  lemma {:induction false} RemoveSettles(keyvals: Keyvals, bitmap: set<nat>, freed: set<nat>, maxKey: nat, objects: Objects, o: nat, key: nat)
    requires KeysOk(keyvals, bitmap, freed, maxKey) && Counted(keyvals, objects, freed)
    requires o in objects && key in keyvals && key in objects[o].attrs
    ensures keyvals[key].refs > 0
    ensures Settled(keyvals, freed, Released(keyvals, key), freed - Gone(keyvals, key))
  {
    assert CountOk(keyvals, objects, freed, key) && o in Carriers(objects, key);
    assert Released(keyvals, key).Keys == keyvals.Keys - Gone(keyvals, key);
  }

  lemma {:induction false} RemoveOk(keyvals: Keyvals, bitmap: set<nat>, freed: set<nat>, maxKey: nat, objects: Objects, sequence: nat, o: nat, key: nat)
    requires AllOk(keyvals, bitmap, freed, maxKey, objects, sequence)
    requires o in objects && key in keyvals && key in objects[o].attrs
    ensures keyvals[key].refs > 0
    ensures var (left, gone) := (Released(keyvals, key), Gone(keyvals, key));
            && AllOk(left, bitmap - gone, freed - gone, maxKey, WithoutAttr(objects, o, key), sequence)
            && Settled(keyvals, freed, left, freed - gone)
  {
    RemoveSettles(keyvals, bitmap, freed, maxKey, objects, o, key);
    DeleteKeeps(keyvals, objects, freed, sequence, o, key);
    ReleaseKeysOk(keyvals, bitmap, freed, maxKey, key);
  }

  /** One call of a delete callback. */
  datatype Deletion = Deletion(object_: nat, key: nat, value: int)

  // ---------------------------------------------------------------------------
  // The order of deletion
  // ---------------------------------------------------------------------------

  /** The keys of an object in the order their attributes were set. */
  ghost predicate InOrder(attrs: map<nat, Attr>, keys: seq<nat>) {
    && (forall k :: k in keys <==> k in attrs)
    && Ascending(attrs, keys)
  }

  /** Some attribute set at the same time as `key` or later has a failing callback: its deletion
      stops the run before `key` is gone. */
  ghost predicate Kept(attrs: map<nat, Attr>, errs: map<nat, int>, key: nat)
    requires key in attrs
  {
    exists f :: f in attrs && Fails(errs, f) && attrs[f].sequence >= attrs[key].sequence
  }

  predicate Fails(errs: map<nat, int>, key: nat) {
    key in errs && errs[key] != 0
  }

  ghost predicate Ascending(attrs: map<nat, Attr>, keys: seq<nat>) {
    forall i, j :: 0 <= i < j < |keys| ==>
      keys[i] in attrs && keys[j] in attrs && attrs[keys[i]].sequence < attrs[keys[j]].sequence
  }

  function Inserted(keys: seq<nat>, i: nat, key: nat): seq<nat>
    requires i <= |keys|
  {
    keys[..i] + [key] + keys[i..]
  }

  lemma {:induction false} InsertedMembers(keys: seq<nat>, i: nat, key: nat, k: nat)
    requires i <= |keys|
    ensures k in Inserted(keys, i, key) <==> k in keys || k == key
  {
    assert keys == keys[..i] + keys[i..];
    assert k in keys <==> k in keys[..i] || k in keys[i..];
  }

  lemma {:induction false} InsertedAscending(attrs: map<nat, Attr>, keys: seq<nat>, i: nat, key: nat)
    requires i <= |keys| && Ascending(attrs, keys) && key in attrs
    requires forall j :: 0 <= j < |keys| ==> keys[j] in attrs
    requires forall j :: 0 <= j < i ==> attrs[keys[j]].sequence < attrs[key].sequence
    requires forall j :: i <= j < |keys| ==> attrs[key].sequence < attrs[keys[j]].sequence
    ensures Ascending(attrs, Inserted(keys, i, key))
  {
    var r := Inserted(keys, i, key);
    forall a | 0 <= a < |r|
      ensures r[a] == (if a < i then keys[a] else if a == i then key else keys[a - 1])
    {
    }
  }

  /** Puts `key` where its sequence number belongs. */
  method InsertKey(attrs: map<nat, Attr>, keys: seq<nat>, key: nat) returns (r: seq<nat>)
    requires key in attrs && Ascending(attrs, keys)
    requires forall j :: 0 <= j < |keys| ==> keys[j] in attrs && attrs[keys[j]].sequence != attrs[key].sequence
    ensures Ascending(attrs, r) && forall k :: k in r <==> k in keys || k == key
  {
    var i := 0;
    while i < |keys| && attrs[keys[i]].sequence < attrs[key].sequence
      invariant i <= |keys|
      invariant forall j :: 0 <= j < i ==> attrs[keys[j]].sequence < attrs[key].sequence
    {
      i := i + 1;
    }
    forall j | i <= j < |keys|
      ensures attrs[key].sequence < attrs[keys[j]].sequence
    {
      assert i < j ==> attrs[keys[i]].sequence < attrs[keys[j]].sequence;
    }
    InsertedAscending(attrs, keys, i, key);
    r := Inserted(keys, i, key);
    forall k
      ensures k in r <==> k in keys || k == key
    {
      InsertedMembers(keys, i, key, k);
    }
  }

  /** attribute.c, lines 1057 to 1066: the keys of the hash, sorted by sequence number. */
  method SortedKeys(attrs: map<nat, Attr>) returns (keys: seq<nat>)
    requires forall j, k :: j in attrs && k in attrs && j != k ==> attrs[j].sequence != attrs[k].sequence
    ensures InOrder(attrs, keys)
  {
    var left := attrs.Keys;
    keys := [];
    while left != {}
      invariant left <= attrs.Keys && forall k :: k in keys <==> k in attrs && k !in left
      invariant Ascending(attrs, keys)
      decreases |left|
    {
      var key :| key in left;
      assert forall j :: 0 <= j < |keys| ==> keys[j] in keys;
      keys := InsertKey(attrs, keys, key);
      left := left - {key};
    }
  }

  /** The delete callbacks called for `keys[n..]`, the last key first. */
  function Reported(o: nat, attrs: map<nat, Attr>, keys: seq<nat>, n: nat): seq<Deletion>
    requires n <= |keys| && forall i :: 0 <= i < |keys| ==> keys[i] in attrs
    decreases |keys| - n
  {
    if n == |keys| then [] else Reported(o, attrs, keys, n + 1) + [Deletion(o, keys[n], attrs[keys[n]].value)]
  }

  lemma {:induction false} ReportedOne(o: nat, attrs: map<nat, Attr>, keys: seq<nat>, n: nat, calls: seq<Deletion>)
    requires n < |keys| && forall i :: 0 <= i < |keys| ==> keys[i] in attrs
    ensures (calls + Reported(o, attrs, keys, n + 1)) + [Deletion(o, keys[n], attrs[keys[n]].value)] == calls + Reported(o, attrs, keys, n)
  {
  }

  /** `now` is `before` cut down to the first `n` keys. */
  ghost predicate Rest(before: map<nat, Attr>, keys: seq<nat>, n: nat, now: map<nat, Attr>) {
    && InOrder(before, keys) && n <= |keys|
    && (forall k :: k in now <==> k in keys[..n])
    && forall k :: k in now ==> k in before && now[k] == before[k]
  }

  lemma {:induction false} LastOfRest(before: map<nat, Attr>, keys: seq<nat>, n: nat, now: map<nat, Attr>)
    requires Rest(before, keys, n, now) && n > 0
    ensures keys[n - 1] in now && Rest(before, keys, n - 1, now - {keys[n - 1]})
  {
    assert keys[..n][n - 1] == keys[n - 1];
    assert keys[..n] == keys[..n - 1] + [keys[n - 1]];
    forall i | 0 <= i < n - 1
      ensures keys[i] != keys[n - 1]
    {
    }
  }

  /** The attributes of `keys[n..]` are gone, and the callbacks of `keys[m..]` were called. */
  ghost predicate Progress(was: Objects, wasCalls: seq<Deletion>, now: Objects, calls: seq<Deletion>, o: nat, errs: map<nat, int>, keys: seq<nat>, n: nat, m: nat) {
    match (n, m)
    case (left, called) =>
    && o in was && now.Keys == was.Keys && (forall p :: p in now && p != o ==> now[p] == was[p])
    && Rest(was[o].attrs, keys, left, now[o].attrs) && now[o].kind == was[o].kind
    && m <= left && calls == wasCalls + Reported(o, was[o].attrs, keys, m)
    && forall j :: left <= j < |keys| ==> !Fails(errs, keys[j])
  }

  lemma {:induction false} ProgressStart(was: Objects, calls: seq<Deletion>, o: nat, errs: map<nat, int>, keys: seq<nat>)
    requires o in was && InOrder(was[o].attrs, keys)
    ensures Progress(was, calls, was, calls, o, errs, keys, |keys|, |keys|)
  {
    assert keys[..|keys|] == keys && calls + [] == calls;
    assert forall i :: 0 <= i < |keys| ==> keys[i] in keys;
  }

  lemma {:induction false} ProgressStep(was: Objects, wasCalls: seq<Deletion>, now: Objects, calls: seq<Deletion>, o: nat, errs: map<nat, int>, keys: seq<nat>, n: nat)
    requires n > 0 && Progress(was, wasCalls, now, calls, o, errs, keys, n, n)
    ensures var (key, after) := (keys[n - 1], calls + [Deletion(o, keys[n - 1], was[o].attrs[keys[n - 1]].value)]);
            && key in now[o].attrs && now[o].attrs[key] == was[o].attrs[key]
            && (if Fails(errs, key) then Progress(was, wasCalls, now, after, o, errs, keys, n, n - 1)
                else Progress(was, wasCalls, WithoutAttr(now, o, key), after, o, errs, keys, n - 1, n - 1))
  {
    LastOfRest(was[o].attrs, keys, n, now[o].attrs);
    ReportedOne(o, was[o].attrs, keys, n - 1, wasCalls);
    if !Fails(errs, keys[n - 1]) {
      var less := WithoutAttr(now, o, keys[n - 1]);
      assert less[o].attrs == now[o].attrs - {keys[n - 1]} && forall p :: p in less && p != o ==> less[p] == now[p];
      assert Rest(was[o].attrs, keys, n - 1, less[o].attrs);
    }
  }

  lemma {:induction false} KeptIff(before: map<nat, Attr>, errs: map<nat, int>, keys: seq<nat>, n: nat, i: nat)
    requires InOrder(before, keys) && n <= |keys| && i < |keys| && keys[i] in before
    requires forall j :: n <= j < |keys| ==> !Fails(errs, keys[j])
    requires n > 0 ==> Fails(errs, keys[n - 1])
    ensures Kept(before, errs, keys[i]) <==> i < n
  {
    if i < n {
      assert keys[n - 1] in keys;
      assert before[keys[n - 1]].sequence >= before[keys[i]].sequence;
    } else {
      forall f | f in before && Fails(errs, f)
        ensures before[f].sequence < before[keys[i]].sequence
      {
        var j :| 0 <= j < |keys| && keys[j] == f;
      }
    }
  }

  lemma {:induction false} PrefixMember(attrs: map<nat, Attr>, keys: seq<nat>, n: nat, i: nat)
    requires InOrder(attrs, keys) && n <= |keys| && i < |keys|
    ensures keys[i] in attrs && (keys[i] in keys[..n] <==> i < n)
  {
    assert keys[i] in keys;
    if i < n {
      assert keys[..n][i] == keys[i];
    }
    forall j | 0 <= j < n
      ensures keys[..n][j] == keys[i] ==> i < n
    {
      if i >= n {
        assert attrs[keys[j]].sequence < attrs[keys[i]].sequence;
      }
    }
  }

  /** `now` is what `before` keeps. */
  ghost predicate KeptOnly(before: map<nat, Attr>, errs: map<nat, int>, now: map<nat, Attr>) {
    && (forall k :: k in now <==> k in before && Kept(before, errs, k))
    && forall k :: k in now ==> k in before && now[k] == before[k]
  }

  /** Stopped at a failing callback, or at the end: what is left is what is kept. */
  lemma {:induction false} RestIsKept(before: map<nat, Attr>, errs: map<nat, int>, keys: seq<nat>, n: nat, now: map<nat, Attr>)
    requires Rest(before, keys, n, now)
    requires forall j :: n <= j < |keys| ==> !Fails(errs, keys[j])
    requires n > 0 ==> Fails(errs, keys[n - 1])
    ensures KeptOnly(before, errs, now)
    ensures n == 0 <==> now == map[]
  {
    forall k | k in before
      ensures k in now <==> Kept(before, errs, k)
    {
      var i :| 0 <= i < |keys| && keys[i] == k;
      KeptIff(before, errs, keys, n, i);
      PrefixMember(before, keys, n, i);
    }
    if n == 0 {
      assert now.Keys == {};
    } else {
      PrefixMember(before, keys, n, n - 1);
    }
  }

  // ---------------------------------------------------------------------------
  // Copying
  // ---------------------------------------------------------------------------

  function Decision(decisions: map<nat, CopyResult>, key: nat): CopyResult {
    if key in decisions then decisions[key] else Skip
  }

  /** The keys of `done` that are to be copied have the copied value; all others are as before. */
  ghost predicate Copied(before: map<nat, Attr>, now: map<nat, Attr>, decisions: map<nat, CopyResult>, done: set<nat>) {
    forall k :: if k in done && Decision(decisions, k).Copy?
                then k in now && now[k].value == Decision(decisions, k).value
                else (k in now <==> k in before) && (k in now ==> now[k] == before[k])
  }

  /** What stops the copying at `key`: its copy callback, or the delete callback of the value that
      it would replace. */
  function CopyFailure(before: map<nat, Attr>, decisions: map<nat, CopyResult>, errs: map<nat, int>, key: nat): Status {
    match Decision(decisions, key)
    case CopyFailed(err) => CallbackFailed(err)
    case Skip => Success
    case Copy(_) => if key in before && Fails(errs, key) then CallbackFailed(errs[key]) else Success
  }

  /** What becomes of one attribute; `deleteErr` is what the delete callback of the value that it
      would replace returns. */
  function CopyOutcome(decision: CopyResult, occupied: bool, deleteErr: int): Status {
    match decision
    case CopyFailed(err) => CallbackFailed(err)
    case Skip => Success
    case Copy(_) => if occupied && deleteErr != 0 then CallbackFailed(deleteErr) else Success
  }

  ghost predicate CopyProgress(was: Objects, now: Objects, from: nat, to: nat, decisions: map<nat, CopyResult>, done: set<nat>, left: set<nat>) {
    match (from, to)
    case (source, target) =>
    && source in was && to in was && source != to && now.Keys == was.Keys
    && now[to].kind == was[to].kind
    && (forall p :: p in now && p != to ==> now[p] == was[p])
    && done + left == was[source].attrs.Keys && done !! left
    && Copied(was[to].attrs, now[to].attrs, decisions, done)
  }

  lemma {:induction false} CopyFails(was: Objects, now: Objects, from: nat, to: nat, decisions: map<nat, CopyResult>, done: set<nat>, left: set<nat>,
                                     key: nat, errs: map<nat, int>, status: Status)
    requires CopyProgress(was, now, from, to, decisions, done, left) && key in left && status != Success
    requires status == CopyOutcome(Decision(decisions, key), key in was[to].attrs, if key in errs then errs[key] else 0)
    ensures key in was[from].attrs && key !in done && status == CopyFailure(was[to].attrs, decisions, errs, key)
  {
  }

  lemma {:induction false} CopyStep(was: Objects, now: Objects, from: nat, to: nat, decisions: map<nat, CopyResult>, done: set<nat>, left: set<nat>, key: nat, sequence: nat)
    requires CopyProgress(was, now, from, to, decisions, done, left) && key in left
    ensures key in was[from].attrs && now[from] == was[from] && (key in now[to].attrs <==> key in was[to].attrs)
    ensures var decision := Decision(decisions, key);
            var after := if decision.Copy? then WithAttr(now, to, key, Attr(decision.value, sequence)) else now;
            CopyProgress(was, after, from, to, decisions, done + {key}, left - {key})
  {
  }
  /** One call of the interface, with what the user's callbacks answer. */
  datatype Operation =
    | NewObject(o: nat, kind: Kind)
    | NewKeyval(kind: Kind, predefined: bool)
    | Free(kind: Kind, key: nat, predefined: bool)
    | Set(o: nat, key: nat, value: int, predefined: bool, err: int)
    | Delete(o: nat, key: nat, predefined: bool, err: int)
    | DeleteEvery(o: nat, errs: map<nat, int>)
    | CopyEvery(from: nat, to: nat, decisions: map<nat, CopyResult>, errs: map<nat, int>)
  {
    function Key(): nat {
      if Free? || Set? || Delete? then key else 0
    }
  }

  /** What the caller gets back; `key` is that of a new keyval. */
  datatype Result = Result(status: Status, key: nat)

  const Refused := Result(BadParam, 0)

  /** The user's own account of what has been freed: successful frees, less successful creations. */
  predicate Frees(op: Operation, r: Result, k: nat) {
    op.Free? && op.key == k && r.status == Success
  }

  predicate Creates(op: Operation, r: Result, k: nat) {
    op.NewKeyval? && r.key == k && r.status == Success
  }

  function Account(freed: set<nat>, op: Operation, r: Result): set<nat> {
    if Frees(op, r, op.Key()) then freed + {op.Key()}
    else if Creates(op, r, r.key) then freed - {r.key}
    else freed
  }

  function FreedBy(freed: set<nat>, ops: seq<Operation>, rs: seq<Result>, n: nat): set<nat>
    requires n <= |rs| <= |ops|
  {
    if n == 0 then freed else Account(FreedBy(freed, ops, rs, n - 1), ops[n - 1], rs[n - 1])
  }

  /** Call `j` frees a keyval that is freed by that account. */
  predicate SecondFree(freed: set<nat>, ops: seq<Operation>, rs: seq<Result>, j: nat)
    requires j < |rs| <= |ops|
  {
    Frees(ops[j], rs[j], ops[j].Key()) && ops[j].Key() in FreedBy(freed, ops, rs, j)
  }

  predicate FreesTwice(freed: set<nat>, ops: seq<Operation>, rs: seq<Result>)
    requires |rs| <= |ops|
  {
    exists j :: 0 <= j < |rs| && SecondFree(freed, ops, rs, j)
  }

  /** No key is named by two frees. */
  predicate FreesOnce(ops: seq<Operation>) {
    forall i, j :: 0 <= i < j < |ops| && ops[i].Free? && ops[j].Free? ==> ops[i].key != ops[j].key
  }

  /** Freed by that account is what some call freed and no later one created. */
  ghost predicate FreedSince(ops: seq<Operation>, rs: seq<Result>, n: nat, k: nat)
    requires n <= |rs| <= |ops|
  {
    exists i :: 0 <= i < n && Frees(ops[i], rs[i], k) && forall j :: i < j < n ==> !Creates(ops[j], rs[j], k)
  }

  lemma {:induction false} FreedByIs(ops: seq<Operation>, rs: seq<Result>, n: nat, k: nat)
    requires n <= |rs| <= |ops|
    ensures k in FreedBy({}, ops, rs, n) <==> FreedSince(ops, rs, n, k)
  {
    if n > 0 {
      FreedByIs(ops, rs, n - 1, k);
      if FreedSince(ops, rs, n - 1, k) && !Creates(ops[n - 1], rs[n - 1], k) {
        var i :| 0 <= i < n - 1 && Frees(ops[i], rs[i], k) && forall j :: i < j < n - 1 ==> !Creates(ops[j], rs[j], k);
        assert FreedSince(ops, rs, n, k);
      }
      if Frees(ops[n - 1], rs[n - 1], k) {
        assert FreedSince(ops, rs, n, k);
      }
      if FreedSince(ops, rs, n, k) {
        var i :| 0 <= i < n && Frees(ops[i], rs[i], k) && forall j :: i < j < n ==> !Creates(ops[j], rs[j], k);
        assert i < n - 1 ==> FreedSince(ops, rs, n - 1, k);
      }
    }
  }

  /** Between two successful frees of one key it was created: one free for each creation. */
  ghost predicate OneFreeEach(ops: seq<Operation>, rs: seq<Result>)
    requires |rs| <= |ops|
  {
    forall i, j, k :: 0 <= i < j < |rs| && Frees(ops[i], rs[i], k) && Frees(ops[j], rs[j], k) ==>
      exists c :: i < c < j && Creates(ops[c], rs[c], k)
  }

  lemma {:induction false} TwiceIff(ops: seq<Operation>, rs: seq<Result>)
    requires |rs| <= |ops|
    ensures FreesTwice({}, ops, rs) <==> !OneFreeEach(ops, rs)
  {
    if j :| 0 <= j < |rs| && SecondFree({}, ops, rs, j) {
      FreedByIs(ops, rs, j, ops[j].Key());
    }
    if i, j, k :| 0 <= i < j < |rs| && Frees(ops[i], rs[i], k) && Frees(ops[j], rs[j], k)
                  && !(exists c :: i < c < j && Creates(ops[c], rs[c], k)) {
      assert FreedSince(ops, rs, j, k);
      FreedByIs(ops, rs, j, k);
      assert SecondFree({}, ops, rs, j);
    }
  }

  lemma {:induction false} NeverTwice(ops: seq<Operation>, rs: seq<Result>)
    requires |rs| <= |ops|
    ensures FreesOnce(ops) ==> !FreesTwice({}, ops, rs)
  {
    TwiceIff(ops, rs);
  }

  /** What one call does to the keys in use and to those freed. */
  ghost predicate Traced(op: Operation, r: Result, keys: set<nat>, freed: set<nat>, now: set<nat>, nowFreed: set<nat>) {
    && (Creates(op, r, r.key) ==> r.key !in keys)
    && now <= keys + (if Creates(op, r, r.key) then {r.key} else {})
    && nowFreed == Account(freed, op, r) * now
  }

  /** So far nothing was freed twice, and `freed` is that account, for the keys still in use. */
  ghost function OnlyOnce(first: set<nat>, ops: seq<Operation>, rs: seq<Result>): (set<nat>, set<nat>) -> bool
    requires |rs| <= |ops|
  {
    (keys: set<nat>, freed: set<nat>) => !FreesTwice(first, ops, rs) && freed == FreedBy(first, ops, rs, |rs|) * keys
  }

  /** What ends a run: it was the last call that freed a keyval a second time, or there is none;
      from the start on, that means two frees of one key without its creation in between. */
  ghost predicate Judged(first: set<nat>, ops: seq<Operation>, rs: seq<Result>, twice: bool)
    requires |rs| <= |ops|
  {
    match (first, twice)
    case (freed, verdict) =>
    && (verdict <==> FreesTwice(freed, ops, rs))
    && (verdict ==> rs != [] && SecondFree(freed, ops, rs, |rs| - 1))
    && (freed == {} ==> (verdict <==> !OneFreeEach(ops, rs)) && (FreesOnce(ops) ==> !verdict))
  }

  lemma {:induction false} RunStart(ops: seq<Operation>, keys: set<nat>, freed: set<nat>)
    requires freed <= keys
    ensures OnlyOnce(freed, ops, [])(keys, freed)
  {
  }

  lemma {:induction false} RunEnd(first: set<nat>, ops: seq<Operation>, rs: seq<Result>, keys: set<nat>, freed: set<nat>)
    requires |rs| == |ops| && OnlyOnce(first, ops, rs)(keys, freed)
    ensures Judged(first, ops, rs, false) && freed == FreedBy(first, ops, rs, |rs|) * keys
  {
    TwiceIff(ops, rs);
  }

  /** One more call, and what is known if it is a second free. */
  lemma {:induction false} RunStep(first: set<nat>, ops: seq<Operation>, rs: seq<Result>, r: Result, keys: set<nat>, freed: set<nat>,
                                   now: set<nat>, nowFreed: set<nat>, twice: bool)
    requires |rs| < |ops| && OnlyOnce(first, ops, rs)(keys, freed)
    requires var op := ops[|rs|];
             && (Frees(op, r, op.Key()) ==> op.Key() in keys)
             && (twice <==> Frees(op, r, op.Key()) && op.Key() in freed)
             && (!twice ==> Traced(op, r, keys, freed, now, nowFreed))
    ensures twice ==> Judged(first, ops, rs + [r], true)
    ensures !twice ==> OnlyOnce(first, ops, rs + [r])(now, nowFreed)
  {
    var all := rs + [r];
    SameAccount(first, ops, rs, r, |rs|);
    forall j | 0 <= j < |rs|
      ensures !SecondFree(first, ops, all, j)
    {
      SameAccount(first, ops, rs, r, j);
      assert !SecondFree(first, ops, rs, j);
    }
    if twice {
      assert SecondFree(first, ops, all, |rs|);
      if first == {} {
        NeverTwice(ops, all);
        TwiceIff(ops, all);
      }
    }
  }

  lemma {:induction false} SameAccount(first: set<nat>, ops: seq<Operation>, rs: seq<Result>, r: Result, n: nat)
    requires n <= |rs| < |ops|
    ensures FreedBy(first, ops, rs + [r], n) == FreedBy(first, ops, rs, n)
  {
    if n > 0 {
      SameAccount(first, ops, rs, r, n - 1);
    }
  }

  class Engine {
    /** keyval_hash, key_bitmap and attr_sequence. */
    var keyvals: Keyvals
    var bitmap: set<nat>
    var sequence: nat
    /** OMPI_FORTRAN_HANDLE_MAX */
    const maxKey: nat
    var objects: Objects
    /** The calls made to delete callbacks. */
    var calls: seq<Deletion>
    /** The keys the user has freed while attributes still use them. */
    ghost var freed: set<nat>

    ghost predicate Valid()
      reads this
    {
      AllOk(keyvals, bitmap, freed, maxKey, objects, sequence)
    }

    constructor (maxKey: nat)
      ensures Valid() && keyvals == map[] && objects == map[] && freed == {} && this.maxKey == maxKey
    {
      this.maxKey := maxKey;
      keyvals, bitmap, sequence, objects, calls, freed := map[], {}, 0, map[], [], {};
    }

    /** CREATE_KEY: the first unset bit, or failure at the maximum size. */
    method CreateKey() returns (key: nat, ok: bool)
      modifies this`bitmap
      ensures ok ==> key < maxKey && key !in old(bitmap) && bitmap == old(bitmap) + {key}
      ensures ok ==> forall k :: 0 <= k < key ==> k in bitmap
      ensures !ok ==> bitmap == old(bitmap) && forall k :: 0 <= k < maxKey ==> k in bitmap
    {
      key := 0;
      while key < maxKey && key in bitmap
        invariant key <= maxKey && forall k :: 0 <= k < key ==> k in bitmap
      {
        key := key + 1;
      }
      ok := key < maxKey;
      if ok {
        bitmap := bitmap + {key};
      }
    }

    method CreateKeyval(kind: Kind, predefined: bool) returns (key: nat, status: Status)
      requires Valid()
      modifies this`keyvals, this`bitmap
      ensures Valid() && (status == Success || status == SysResource)
      ensures status == Success ==>
                && key !in old(keyvals) && keyvals == old(keyvals)[key := Keyval(kind, predefined, 1)]
                && forall k :: 0 <= k < key ==> k in old(keyvals)
      ensures status != Success ==> keyvals == old(keyvals) && forall k :: 0 <= k < maxKey ==> k in keyvals
    {
      var ok;
      key, ok := CreateKey();
      if !ok {
        return key, SysResource;
      }
      CreateKeeps(keyvals, objects, freed, sequence, key, Keyval(kind, predefined, 1));
      keyvals := keyvals[key := Keyval(kind, predefined, 1)];
      status := Success;
    }

    method Release(key: nat)
      requires key in keyvals && keyvals[key].refs > 0
      modifies this`keyvals, this`bitmap, this`freed
      ensures keyvals == Released(old(keyvals), key)
      ensures bitmap == old(bitmap) - Gone(old(keyvals), key) && freed == old(freed) - Gone(old(keyvals), key)
    {
      var left: nat := keyvals[key].refs - 1;
      if left == 0 {
        keyvals := keyvals - {key};
        bitmap := bitmap - {key};
        freed := freed - {key};
      } else {
        keyvals := keyvals[key := keyvals[key].(refs := left)];
      }
    }

    /** The test at the head of most functions. */
    predicate Usable(kind: Kind, key: nat, predefined: bool)
      reads this
    {
      key in keyvals && keyvals[key].kind == kind && (predefined || !keyvals[key].predefined)
    }

    /** ompi_attr_free_keyval: one count is released. The counts stay right exactly when the user
        has not freed the keyval before. */
    method FreeKeyval(kind: Kind, key: nat, predefined: bool) returns (status: Status)
      requires Valid()
      modifies this`keyvals, this`bitmap, this`freed
      ensures status == if old(Usable(kind, key, predefined)) then Success else BadParam
      ensures status == BadParam ==> Valid() && keyvals == old(keyvals) && freed == old(freed) && bitmap == old(bitmap)
      ensures status == Success ==>
                && old(keyvals)[key].refs > 0 && keyvals == Released(old(keyvals), key) && bitmap == keyvals.Keys
                && freed == old(freed) + {key} - Gone(old(keyvals), key)
      ensures status == Success ==> (Valid() <==> key !in old(freed))
      ensures status == Success && key !in old(freed) ==> (key in keyvals <==> Carriers(objects, key) != {})
    {
      if !Usable(kind, key, predefined) {
        return BadParam;
      }
      ghost var first := key !in freed;
      assert CountOk(keyvals, objects, freed, key);
      if first {
        ReleaseKeysOk(keyvals, bitmap, freed + {key}, maxKey, key);
        FreeKeeps(key);
        freed := freed + {key};
      } else {
        SecondFreeBreaks(key);
      }
      Release(key);
      status := Success;
    }

    /** What the first free of a keyval does to the counts. */
    lemma {:induction false} FreeKeeps(key: nat)
      requires Valid() && key in keyvals && key !in freed && keyvals[key].refs > 0
      ensures var (left, out) := (Released(keyvals, key), freed + {key});
              var rest := out - Gone(keyvals, key);
              && Counted(left, objects, rest) && ObjectsOk(left, objects, sequence)
              && (key in left <==> Carriers(objects, key) != {})
    {
      ReleaseKeeps(keyvals, objects, freed, objects, freed + {key}, key);
      ReleaseTyped(keyvals, objects, sequence, objects, key);
    }

    /** A second free takes away the count of an object that still carries the keyval. */
    lemma {:induction false} SecondFreeBreaks(key: nat)
      requires Valid() && key in keyvals && key in freed
      ensures keyvals[key].refs > 0
      ensures key in Released(keyvals, key) ==> !CountOk(Released(keyvals, key), objects, freed, key)
      ensures key !in Released(keyvals, key) ==> !ObjectsOk(Released(keyvals, key), objects, sequence)
    {
      assert CountOk(keyvals, objects, freed, key);
      if key !in Released(keyvals, key) {
        var o :| o in Carriers(objects, key);
        assert !Typed(Released(keyvals, key), objects[o]);
      }
    }

    method AddObject(o: nat, kind: Kind)
      requires Valid() && o !in objects
      modifies this`objects
      ensures Valid() && objects == old(objects)[o := Object(kind, map[])]
    {
      forall k | k in keyvals
        ensures CountOk(keyvals, objects[o := Object(kind, map[])], freed, k)
      {
        assert CountOk(keyvals, objects, freed, k);
        assert Carriers(objects[o := Object(kind, map[])], k) == Carriers(objects, k);
      }
      objects := objects[o := Object(kind, map[])];
    }

    /** get_value */
    method GetValue(o: nat, key: nat) returns (status: Status, value: int, flag: bool)
      requires o in objects
      ensures status == if key in keyvals then Success else BadParam
      ensures flag <==> key in keyvals && key in objects[o].attrs
      ensures flag ==> value == objects[o].attrs[key].value
    {
      if key !in keyvals {
        return BadParam, 0, false;
      }
      if key in objects[o].attrs {
        return Success, objects[o].attrs[key].value, true;
      }
      return Success, 0, false;
    }

    /** set_value; `deleteErr` is what the delete callback returns for a value replaced. */
    method SetValue(o: nat, key: nat, value: int, predefined: bool, deleteErr: int) returns (status: Status)
      requires Valid() && o in objects
      modifies this`keyvals, this`sequence, this`objects, this`calls
      ensures Valid()
      ensures !old(Usable(objects[o].kind, key, predefined)) ==> status == BadParam
      ensures old(Usable(objects[o].kind, key, predefined)) ==>
                status == if key in old(objects)[o].attrs && deleteErr != 0 then CallbackFailed(deleteErr) else Success
      ensures status != Success ==> keyvals == old(keyvals) && objects == old(objects) && sequence == old(sequence)
      ensures status == Success ==>
                && objects == WithAttr(old(objects), o, key, Attr(value, old(sequence))) && sequence == old(sequence) + 1
                && keyvals == if key in old(objects)[o].attrs then old(keyvals) else Retained(old(keyvals), key)
      ensures Settled(old(keyvals), freed, keyvals, freed)
      ensures calls == old(calls) + (if old(Usable(objects[o].kind, key, predefined)) && key in old(objects)[o].attrs
                                     then [Deletion(o, key, old(objects)[o].attrs[key].value)] else [])
    {
      NothingSettles(keyvals, freed);
      if !Usable(objects[o].kind, key, predefined) {
        return BadParam;
      }
      var hadOld := false;
      if key in objects[o].attrs {
        calls := calls + [Deletion(o, key, objects[o].attrs[key].value)];
        if deleteErr != 0 {
          return CallbackFailed(deleteErr);
        }
        hadOld := true;
      }
      Place(o, key, value, hadOld);
      return Success;
    }

    /** attribute.c, lines 1160 to 1169. */
    method Place(o: nat, key: nat, value: int, hadOld: bool)
      requires Valid() && o in objects && key in keyvals && keyvals[key].kind == objects[o].kind
      requires hadOld == (key in objects[o].attrs)
      modifies this`keyvals, this`sequence, this`objects
      ensures Valid() && sequence == old(sequence) + 1
      ensures objects == WithAttr(old(objects), o, key, Attr(value, old(sequence)))
      ensures keyvals == if hadOld then old(keyvals) else Retained(old(keyvals), key)
      ensures Settled(old(keyvals), freed, keyvals, freed)
    {
      SetKeeps(keyvals, objects, freed, sequence, o, key, value);
      NothingSettles(keyvals, freed);
      RetainSettles(keyvals, freed, key);
      objects := WithAttr(objects, o, key, Attr(value, sequence));
      sequence := sequence + 1;
      if !hadOld {
        keyvals := Retained(keyvals, key);
      }
    }

    /** ompi_attr_delete_impl; `err` is what the delete callback returns. */
    method DeleteAttr(o: nat, key: nat, predefined: bool, err: int) returns (status: Status)
      requires Valid() && o in objects
      modifies this`keyvals, this`bitmap, this`objects, this`calls, this`freed
      ensures Valid()
      ensures status == if !old(Usable(objects[o].kind, key, predefined)) then BadParam
                        else if key !in old(objects)[o].attrs then NotFound
                        else if err != 0 then CallbackFailed(err) else Success
      ensures status != Success ==> keyvals == old(keyvals) && objects == old(objects) && freed == old(freed)
      ensures status == Success ==>
                && objects == WithoutAttr(old(objects), o, key)
                && old(keyvals)[key].refs > 0 && keyvals == Released(old(keyvals), key) && freed == old(freed) - Gone(old(keyvals), key)
      ensures Settled(old(keyvals), old(freed), keyvals, freed)
      ensures calls == old(calls) + (if status == Success || status.CallbackFailed?
                                     then [Deletion(o, key, old(objects)[o].attrs[key].value)] else [])
    {
      NothingSettles(keyvals, freed);
      if !Usable(objects[o].kind, key, predefined) {
        return BadParam;
      }
      if key !in objects[o].attrs {
        return NotFound;
      }
      calls := calls + [Deletion(o, key, objects[o].attrs[key].value)];
      if err != 0 {
        return CallbackFailed(err);
      }
      Remove(o, key);
      return Success;
    }

    method TakeOff(o: nat, key: nat)
      requires o in objects
      modifies this`objects
      ensures objects == WithoutAttr(old(objects), o, key)
    {
      objects := WithoutAttr(objects, o, key);
    }

    /** attribute.c, lines 992 to 1004. */
    method Remove(o: nat, key: nat)
      requires Valid() && o in objects && key in keyvals && key in objects[o].attrs
      modifies this`keyvals, this`bitmap, this`objects, this`freed
      ensures Valid() && objects == WithoutAttr(old(objects), o, key)
      ensures old(keyvals)[key].refs > 0 && keyvals == Released(old(keyvals), key) && freed == old(freed) - Gone(old(keyvals), key)
      ensures Settled(old(keyvals), old(freed), keyvals, freed)
    {
      RemoveOk(keyvals, bitmap, freed, maxKey, objects, sequence, o, key);
      Detach(o, key);
    }

    method Detach(o: nat, key: nat)
      requires o in objects && key in keyvals && keyvals[key].refs > 0
      modifies this`keyvals, this`bitmap, this`objects, this`freed
      ensures objects == WithoutAttr(old(objects), o, key) && keyvals == Released(old(keyvals), key)
      ensures bitmap == old(bitmap) - Gone(old(keyvals), key) && freed == old(freed) - Gone(old(keyvals), key)
    {
      TakeOff(o, key);
      Release(key);
    }

    /** ompi_attr_delete_all: deletes the attributes last set first, and stops at the first
        callback that fails. `errs` are the callbacks' results; `keys` is the order in which the
        attributes were set, and the callbacks of `keys[called..]` were called, last one first.
        What stays is exactly what was set no later than some attribute whose callback fails. */
    method DeleteAll(o: nat, errs: map<nat, int>) returns (status: Status, ghost keys: seq<nat>, ghost called: nat)
      requires Valid() && o in objects
      modifies this`keyvals, this`bitmap, this`objects, this`calls, this`freed
      ensures Valid() && objects.Keys == old(objects).Keys && Settled(old(keyvals), old(freed), keyvals, freed)
      ensures forall p :: p in objects && p != o ==> objects[p] == old(objects)[p]
      ensures KeptOnly(old(objects)[o].attrs, errs, objects[o].attrs)
      ensures status == Success <==> objects[o].attrs == map[]
      ensures InOrder(old(objects)[o].attrs, keys) && called <= |keys|
      ensures calls == old(calls) + Reported(o, old(objects)[o].attrs, keys, called)
      ensures if status == Success then called == 0
              else called < |keys| && Fails(errs, keys[called]) && status == CallbackFailed(errs[keys[called]])
    {
      assert Ordered(objects[o], sequence);
      var order := SortedKeys(objects[o].attrs);
      ghost var left;
      status, left := DeleteBackwards(o, errs, order);
      keys, called := order, if status == Success then 0 else left - 1;
      RestIsKept(old(objects)[o].attrs, errs, order, left, objects[o].attrs);
    }

    /** attribute.c, lines 1073 to 1079. */
    method DeleteBackwards(o: nat, errs: map<nat, int>, order: seq<nat>) returns (status: Status, ghost left: nat)
      requires Valid() && o in objects && InOrder(objects[o].attrs, order)
      modifies this`keyvals, this`bitmap, this`objects, this`calls, this`freed
      ensures Valid() && left <= |order| && (status == Success <==> left == 0) && Settled(old(keyvals), old(freed), keyvals, freed)
      ensures Progress(old(objects), old(calls), objects, calls, o, errs, order, left, if status == Success then 0 else left - 1)
      ensures status != Success ==> Fails(errs, order[left - 1]) && status == CallbackFailed(errs[order[left - 1]])
    {
      ghost var (was, wasCalls) := (objects, calls);
      NothingSettles(keyvals, freed);
      ProgressStart(was, wasCalls, o, errs, order);
      var n := |order|;
      while n > 0
        invariant 0 <= n <= |order| && Valid() && Progress(was, wasCalls, objects, calls, o, errs, order, n, n)
        invariant Settled(old(keyvals), old(freed), keyvals, freed)
      {
        status := DeleteStep(was, wasCalls, old(keyvals), old(freed), o, errs, order, n);
        if status != Success {
          return status, n;
        }
        n := n - 1;
      }
      return Success, 0;
    }

    /** One turn of that loop. */
    method DeleteStep(ghost was: Objects, ghost wasCalls: seq<Deletion>, ghost kv: Keyvals, ghost fr: set<nat>, o: nat, errs: map<nat, int>,
                      order: seq<nat>, n: nat)
      returns (status: Status)
      requires Valid() && 0 < n <= |order| && Progress(was, wasCalls, objects, calls, o, errs, order, n, n)
      requires Settled(kv, fr, keyvals, freed)
      modifies this`keyvals, this`bitmap, this`objects, this`calls, this`freed
      ensures Valid() && Settled(kv, fr, keyvals, freed)
      ensures if status == Success then Progress(was, wasCalls, objects, calls, o, errs, order, n - 1, n - 1)
              else Progress(was, wasCalls, objects, calls, o, errs, order, n, n - 1)
      ensures status != Success ==> Fails(errs, order[n - 1]) && status == CallbackFailed(errs[order[n - 1]])
    {
      ProgressStep(was, wasCalls, objects, calls, o, errs, order, n);
      status := DeleteLast(o, order[n - 1], if order[n - 1] in errs then errs[order[n - 1]] else 0);
      SettledTwice(kv, fr, old(keyvals), old(freed), keyvals, freed);
    }

    method DeleteLast(o: nat, key: nat, err: int) returns (status: Status)
      requires Valid() && o in objects && key in objects[o].attrs
      modifies this`keyvals, this`bitmap, this`objects, this`calls, this`freed
      ensures Valid() && status == (if err != 0 then CallbackFailed(err) else Success)
      ensures Settled(old(keyvals), old(freed), keyvals, freed)
      ensures objects == if err != 0 then old(objects) else WithoutAttr(old(objects), o, key)
      ensures calls == old(calls) + [Deletion(o, key, old(objects)[o].attrs[key].value)]
    {
      assert Typed(keyvals, objects[o]);
      status := DeleteAttr(o, key, true, err);
    }

    /** ompi_attr_copy_all: asks every copy callback and sets what it decides to copy, until one
        fails. `done` are the attributes dealt with, `failedAt` the one that failed. */
    method CopyAll(from: nat, to: nat, decisions: map<nat, CopyResult>, errs: map<nat, int>)
      returns (status: Status, ghost done: set<nat>, ghost failedAt: nat)
      requires Valid() && from in objects && to in objects && from != to && objects[from].kind == objects[to].kind
      modifies this`keyvals, this`sequence, this`objects, this`calls
      ensures Valid() && objects.Keys == old(objects).Keys && Settled(old(keyvals), freed, keyvals, freed)
      ensures forall p :: p in objects && p != to ==> objects[p] == old(objects)[p]
      ensures done <= old(objects)[from].attrs.Keys
      ensures Copied(old(objects)[to].attrs, objects[to].attrs, decisions, done)
      ensures status == Success ==> done == old(objects)[from].attrs.Keys
      ensures status != Success ==>
                && failedAt in old(objects)[from].attrs && failedAt !in done
                && status == CopyFailure(old(objects)[to].attrs, decisions, errs, failedAt)
    {
      ghost var was := objects;
      NothingSettles(keyvals, freed);
      var left := objects[from].attrs.Keys;
      done, failedAt := {}, 0;
      while left != {}
        invariant Valid() && CopyProgress(was, objects, from, to, decisions, done, left)
        invariant Settled(old(keyvals), freed, keyvals, freed)
        decreases |left|
      {
        var key :| key in left;
        status := CopyStepAt(was, old(keyvals), done, left, from, to, key, decisions, if key in errs then errs[key] else 0);
        if status != Success {
          failedAt := key;
          CopyFails(was, objects, from, to, decisions, done, left, key, errs, status);
          return;
        }
        left := left - {key};
        done := done + {key};
      }
      status := Success;
    }

    /** One turn of that loop. */
    method CopyStepAt(ghost was: Objects, ghost kv: Keyvals, ghost done: set<nat>, ghost left: set<nat>, from: nat, to: nat, key: nat,
                      decisions: map<nat, CopyResult>, deleteErr: int)
      returns (status: Status)
      requires Valid() && CopyProgress(was, objects, from, to, decisions, done, left) && key in left
      requires Settled(kv, freed, keyvals, freed) && was[from].kind == was[to].kind
      modifies this`keyvals, this`sequence, this`objects, this`calls
      ensures Valid() && Settled(kv, freed, keyvals, freed)
      ensures status == CopyOutcome(Decision(decisions, key), key in was[to].attrs, deleteErr)
      ensures if status == Success then CopyProgress(was, objects, from, to, decisions, done + {key}, left - {key})
              else CopyProgress(was, objects, from, to, decisions, done, left)
    {
      CopyStep(was, objects, from, to, decisions, done, left, key, sequence);
      status := CopyOne(from, to, key, Decision(decisions, key), deleteErr);
      SettledTwice(kv, freed, old(keyvals), freed, keyvals, freed);
    }

    method CopyOne(from: nat, to: nat, key: nat, decision: CopyResult, deleteErr: int) returns (status: Status)
      requires Valid() && from in objects && to in objects && from != to && objects[from].kind == objects[to].kind
      requires key in objects[from].attrs
      modifies this`keyvals, this`sequence, this`objects, this`calls
      ensures Valid() && Settled(old(keyvals), freed, keyvals, freed)
      ensures status == CopyOutcome(decision, key in old(objects)[to].attrs, deleteErr)
      ensures objects == if status == Success && decision.Copy?
                         then WithAttr(old(objects), to, key, Attr(decision.value, old(sequence))) else old(objects)
    {
      assert Typed(keyvals, objects[from]);
      NothingSettles(keyvals, freed);
      match decision {
        case CopyFailed(err) => status := CallbackFailed(err);
        case Skip => status := Success;
        case Copy(value) => status := SetValue(to, key, value, true, deleteErr);
      }
    }

    /** Only objects that carry the keyval still count for it: the user has freed it. */
    predicate NoUser(key: nat)
      reads this
    {
      key in keyvals && keyvals[key].refs == |Carriers(objects, key)|
    }

    /** Any sequence of calls, up to a second free of a keyval: every count is what is due exactly
        until a keyval is freed a second time without having been created again in between. A
        call on an object that does not exist is refused. */
    method Run(operations: seq<Operation>) returns (twice: bool, results: seq<Result>)
      requires Valid()
      modifies this
      ensures |results| <= |operations| && (Valid() <==> !twice) && (!twice ==> |results| == |operations|)
      ensures Judged(old(freed), operations, results, twice)
      ensures !twice ==> freed == FreedBy(old(freed), operations, results, |results|) * keyvals.Keys
    {
      results, twice := [], false;
      RunStart(operations, keyvals.Keys, freed);
      while |results| < |operations|
        invariant |results| <= |operations| && Valid() && OnlyOnce(old(freed), operations, results)(keyvals.Keys, freed)
      {
        ghost var (kv, fr) := (keyvals.Keys, freed);
        var result;
        twice, result := Perform(operations[|results|]);
        RunStep(old(freed), operations, results, result, kv, fr, keyvals.Keys, freed, twice);
        results := results + [result];
        if twice {
          return;
        }
      }
      RunEnd(old(freed), operations, results, keyvals.Keys, freed);
    }

    /** One call: the counts stay right exactly when it is not a second free. */
    method Perform(op: Operation) returns (twice: bool, result: Result)
      requires Valid()
      modifies this
      ensures Frees(op, result, op.Key()) ==> op.Key() in old(keyvals)
      ensures twice <==> Frees(op, result, op.Key()) && op.Key() in old(freed)
      ensures Valid() <==> !twice
      ensures !twice ==> Traced(op, result, old(keyvals).Keys, old(freed), keyvals.Keys, freed)
    {
      twice := op.Free? && Usable(op.kind, op.key, op.predefined) && NoUser(op.key);
      if op.Free? && op.key in keyvals {
        assert CountOk(keyvals, objects, freed, op.key);
      }
      match op {
        case NewObject(o, kind) =>
          result := Refused;
          if o !in objects {
            AddObject(o, kind);
            result := Result(Success, 0);
          }
        case NewKeyval(kind, predefined) =>
          var key, status := CreateKeyval(kind, predefined);
          result := Result(status, key);
        case Free(kind, key, predefined) =>
          var status := FreeKeyval(kind, key, predefined);
          result := Result(status, 0);
        case _ =>
          result := OnObject(op);
      }
    }

    method OnObject(op: Operation) returns (result: Result)
      requires Valid() && !op.Free? && !op.NewKeyval?
      modifies this
      ensures Valid() && Settled(old(keyvals), old(freed), keyvals, freed)
    {
      result := Refused;
      NothingSettles(keyvals, freed);
      match op {
        case Set(o, key, value, predefined, err) =>
          if o in objects {
            var status := SetValue(o, key, value, predefined, err);
            result := Result(status, 0);
          }
        case Delete(o, key, predefined, err) =>
          if o in objects {
            var status := DeleteAttr(o, key, predefined, err);
            result := Result(status, 0);
          }
        case DeleteEvery(o, errs) =>
          if o in objects {
            var status, _, _ := DeleteAll(o, errs);
            result := Result(status, 0);
          }
        case CopyEvery(from, to, decisions, errs) =>
          if from in objects && to in objects && from != to && objects[from].kind == objects[to].kind {
            var status, _, _ := CopyAll(from, to, decisions, errs);
            result := Result(status, 0);
          }
        case _ =>
      }
    }
  }
}
