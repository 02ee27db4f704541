/**
 * The slice of JavaScript values and plain objects that the connector
 * manipulates.  An object is the list of its own properties in enumeration
 * order (the order `Object.keys` and `for…in` report); assigning a property
 * follows the order JavaScript keeps: an existing key keeps its place, a new
 * array-index key ("0", "17", …) goes among the other index keys in numeric
 * order ahead of every string key, and any other new key goes last.
 */
module JsValues {

  datatype Value =
    | Undefined
    | Null
    | Bool(b: bool)
    | Num(n: int)
    | Str(s: string)
    | Arr(items: seq<Value>)
    | Obj(fields: seq<Field>)   // an object literal: `constructor` is Object unless it has its own
    | ObjectId(seed: Value)     // the store's ObjectID built from seed; never looked into
    | Native(kind: string)      // any other non-plain object (Date, RegExp, …)

  datatype Field = Field(key: string, val: Value)

  /** JavaScript truthiness. */
  predicate Truthy(v: Value) {
    match v
    case Undefined => false
    case Null => false
    case Bool(b) => b
    case Num(n) => n != 0
    case Str(s) => s != ""
    case _ => true
  }

  function Keys(fs: seq<Field>): seq<string> {
    seq(|fs|, i requires 0 <= i < |fs| => fs[i].key)
  }

  predicate UniqueKeys(fs: seq<Field>) {
    forall i, j :: 0 <= i < j < |fs| ==> fs[i].key != fs[j].key
  }

  /** Property read `o[k]`: the value of key k, or undefined when there is none. */
  function Get(fs: seq<Field>, k: string): Value {
    if fs == [] then Undefined
    else if fs[0].key == k then fs[0].val
    else Get(fs[1..], k)
  }

  /** `delete o[k]`. */
  function Delete(fs: seq<Field>, k: string): (r: seq<Field>)
    ensures |r| <= |fs|
  {
    if fs == [] then []
    else if fs[0].key == k then Delete(fs[1..], k)
    else [fs[0]] + Delete(fs[1..], k)
  }

  // ---------------------------------------------------------------------------
  // Array-index keys and the enumeration order of properties.

  predicate IsDigit(c: char) { '0' <= c <= '9' }

  function DecimalValue(s: string): int
    requires forall i :: 0 <= i < |s| ==> IsDigit(s[i])
  {
    if s == [] then 0
    else DecimalValue(s[..|s| - 1]) * 10 + (s[|s| - 1] as int - '0' as int)
  }

  /** A canonical decimal numeral below 2^32 - 1: a key JavaScript treats as an array index. */
  predicate IsArrayIndex(k: string) {
    && |k| >= 1
    && (forall i :: 0 <= i < |k| ==> IsDigit(k[i]))
    && (k[0] != '0' || |k| == 1)
    && DecimalValue(k) < 0xFFFF_FFFF
  }

  /** Key a is enumerated ahead of key b: a is an index and b is either no index or a larger one. */
  predicate Before(a: string, b: string) {
    IsArrayIndex(a) && (!IsArrayIndex(b) || DecimalValue(a) < DecimalValue(b))
  }

  /** The keys are listed in the order JavaScript enumerates them. */
  predicate PropertyOrdered(ks: seq<string>) {
    forall i, j :: 0 <= i < j < |ks| ==> !Before(ks[j], ks[i])
  }

  /** Overwrite the value of an existing key in place. */
  function Replace(fs: seq<Field>, k: string, v: Value): (r: seq<Field>)
    ensures |r| == |fs|
  {
    if fs == [] then []
    else if fs[0].key == k then [Field(k, v)] + fs[1..]
    else [fs[0]] + Replace(fs[1..], k, v)
  }

  /** Add a new key at the place JavaScript enumerates it. */
  function Insert(fs: seq<Field>, k: string, v: Value): (r: seq<Field>)
    ensures |r| == |fs| + 1
  {
    if fs == [] then [Field(k, v)]
    else if Before(k, fs[0].key) then [Field(k, v)] + fs
    else [fs[0]] + Insert(fs[1..], k, v)
  }

  /** `k in o` for an own property. */
  predicate HasKey(fs: seq<Field>, k: string) {
    fs != [] && (fs[0].key == k || HasKey(fs[1..], k))
  }

  /** Property assignment `o[k] = v`. */
  function Put(fs: seq<Field>, k: string, v: Value): seq<Field> {
    if HasKey(fs, k) then Replace(fs, k, v) else Insert(fs, k, v)
  }

  // ---------------------------------------------------------------------------
  // Lemmas about reads, deletion and assignment.

  lemma {:induction false} KeysCons(f: Field, fs: seq<Field>)
    ensures Keys([f] + fs) == [f.key] + Keys(fs)
  {
  }

  lemma {:induction false} HasKeyIff(fs: seq<Field>, k: string)
    ensures HasKey(fs, k) <==> k in Keys(fs)
  {
    if fs != [] {
      HasKeyIff(fs[1..], k);
      assert Keys(fs) == [fs[0].key] + Keys(fs[1..]);
    }
  }

  lemma {:induction false} GetFound(fs: seq<Field>, i: nat)
    requires UniqueKeys(fs) && i < |fs|
    ensures Get(fs, fs[i].key) == fs[i].val
  {
    if i > 0 {
      GetFound(fs[1..], i - 1);
    }
  }

  lemma {:induction false} DeleteProps(fs: seq<Field>, k: string)
    ensures k !in Keys(Delete(fs, k))
    ensures forall x :: x != k ==> (x in Keys(Delete(fs, k)) <==> x in Keys(fs))
    ensures forall x :: x != k ==> Get(Delete(fs, k), x) == Get(fs, x)
    ensures k !in Keys(fs) ==> Delete(fs, k) == fs
  {
    if fs != [] {
      DeleteProps(fs[1..], k);
      assert Keys(fs) == [fs[0].key] + Keys(fs[1..]);
      if fs[0].key != k {
        KeysCons(fs[0], Delete(fs[1..], k));
      }
    }
  }

  lemma {:induction false} UniqueHead(fs: seq<Field>)
    requires UniqueKeys(fs) && fs != []
    ensures UniqueKeys(fs[1..]) && fs[0].key !in Keys(fs[1..])
  {
    forall t | 0 <= t < |fs[1..]| ensures Keys(fs[1..])[t] != fs[0].key {
      assert fs[1..][t] == fs[t + 1];
    }
  }

  lemma {:induction false} UniqueCons(f: Field, fs: seq<Field>)
    requires UniqueKeys(fs) && f.key !in Keys(fs)
    ensures UniqueKeys([f] + fs)
  {
    var r := [f] + fs;
    forall i, j | 0 <= i < j < |r| ensures r[i].key != r[j].key {
      if i == 0 {
        assert Keys(fs)[j - 1] == r[j].key;
      }
    }
  }

  lemma {:induction false} OrderedHead(fs: seq<Field>)
    requires PropertyOrdered(Keys(fs)) && fs != []
    ensures PropertyOrdered(Keys(fs[1..]))
    ensures forall x :: x in Keys(fs[1..]) ==> !Before(x, fs[0].key)
  {
    var ks, tail := Keys(fs), Keys(fs[1..]);
    assert ks == [fs[0].key] + tail;
    forall i, j | 0 <= i < j < |tail| ensures !Before(tail[j], tail[i]) {
      assert tail[i] == ks[i + 1] && tail[j] == ks[j + 1];
    }
    forall x | x in tail ensures !Before(x, fs[0].key) {
      var t :| 0 <= t < |tail| && tail[t] == x;
      assert ks[t + 1] == x && ks[0] == fs[0].key;
    }
  }

  lemma {:induction false} OrderedCons(f: Field, fs: seq<Field>)
    requires PropertyOrdered(Keys(fs))
    requires forall x :: x in Keys(fs) ==> !Before(x, f.key)
    ensures PropertyOrdered(Keys([f] + fs))
  {
    KeysCons(f, fs);
    var ks := Keys([f] + fs);
    forall i, j | 0 <= i < j < |ks| ensures !Before(ks[j], ks[i]) {
      if i == 0 {
        assert ks[j] == Keys(fs)[j - 1];
      } else {
        assert ks[i] == Keys(fs)[i - 1] && ks[j] == Keys(fs)[j - 1];
      }
    }
  }

  lemma {:induction false} DeleteUnique(fs: seq<Field>, k: string)
    requires UniqueKeys(fs)
    ensures UniqueKeys(Delete(fs, k))
  {
    if fs != [] {
      UniqueHead(fs);
      DeleteUnique(fs[1..], k);
      if fs[0].key != k {
        DeleteProps(fs[1..], k);
        UniqueCons(fs[0], Delete(fs[1..], k));
      }
    }
  }

  lemma {:induction false} DeleteOrdered(fs: seq<Field>, k: string)
    requires PropertyOrdered(Keys(fs))
    ensures PropertyOrdered(Keys(Delete(fs, k)))
  {
    if fs != [] {
      OrderedHead(fs);
      DeleteOrdered(fs[1..], k);
      if fs[0].key != k {
        DeleteProps(fs[1..], k);
        OrderedCons(fs[0], Delete(fs[1..], k));
      }
    }
  }

  lemma {:induction false} ReplaceProps(fs: seq<Field>, k: string, v: Value)
    requires k in Keys(fs)
    ensures Keys(Replace(fs, k, v)) == Keys(fs)
    ensures Get(Replace(fs, k, v), k) == v
    ensures forall x :: x != k ==> Get(Replace(fs, k, v), x) == Get(fs, x)
  {
    assert Keys(fs) == [fs[0].key] + Keys(fs[1..]);
    if fs[0].key != k {
      ReplaceProps(fs[1..], k, v);
      KeysCons(fs[0], Replace(fs[1..], k, v));
    } else {
      KeysCons(Field(k, v), fs[1..]);
    }
  }

  lemma {:induction false} InsertProps(fs: seq<Field>, k: string, v: Value)
    requires k !in Keys(fs)
    ensures forall x :: x in Keys(Insert(fs, k, v)) <==> x in Keys(fs) || x == k
    ensures Get(Insert(fs, k, v), k) == v
    ensures forall x :: x != k ==> Get(Insert(fs, k, v), x) == Get(fs, x)
  {
    if fs == [] {
      assert Keys([Field(k, v)]) == [k];
    } else {
      assert Keys(fs) == [fs[0].key] + Keys(fs[1..]);
      if Before(k, fs[0].key) {
        KeysCons(Field(k, v), fs);
      } else {
        InsertProps(fs[1..], k, v);
        KeysCons(fs[0], Insert(fs[1..], k, v));
      }
    }
  }

  /** Reading back an assignment, and what it leaves alone. */
  lemma PutProps(fs: seq<Field>, k: string, v: Value)
    ensures forall x :: x in Keys(Put(fs, k, v)) <==> x in Keys(fs) || x == k
    ensures Get(Put(fs, k, v), k) == v
    ensures forall x :: x != k ==> Get(Put(fs, k, v), x) == Get(fs, x)
  {
    HasKeyIff(fs, k);
    if k in Keys(fs) {
      ReplaceProps(fs, k, v);
    } else {
      InsertProps(fs, k, v);
    }
  }

  /** Assigning a key the value it already holds changes nothing. */
  lemma {:induction false} PutSame(fs: seq<Field>, k: string)
    requires HasKey(fs, k)
    ensures Put(fs, k, Get(fs, k)) == fs
  {
    if fs[0].key != k {
      PutSame(fs[1..], k);
      assert fs == [fs[0]] + fs[1..];
    }
  }

  lemma {:induction false} ReplaceUnique(fs: seq<Field>, k: string, v: Value)
    requires k in Keys(fs)
    requires UniqueKeys(fs)
    ensures UniqueKeys(Replace(fs, k, v))
  {
    ReplaceProps(fs, k, v);
    var r := Replace(fs, k, v);
    forall i, j | 0 <= i < j < |r| ensures r[i].key != r[j].key {
      assert Keys(r)[i] == r[i].key && Keys(r)[j] == r[j].key;
      assert Keys(fs)[i] == fs[i].key && Keys(fs)[j] == fs[j].key;
    }
  }

  lemma {:induction false} InsertUnique(fs: seq<Field>, k: string, v: Value)
    requires k !in Keys(fs)
    requires UniqueKeys(fs)
    ensures UniqueKeys(Insert(fs, k, v))
  {
    if fs == [] {
      assert Keys([]) == [];
    } else {
      assert Keys(fs) == [fs[0].key] + Keys(fs[1..]);
      UniqueHead(fs);
      if Before(k, fs[0].key) {
        UniqueCons(Field(k, v), fs);
      } else {
        InsertUnique(fs[1..], k, v);
        InsertProps(fs[1..], k, v);
        UniqueCons(fs[0], Insert(fs[1..], k, v));
      }
    }
  }

  /** Assignment keeps every key unique. */
  lemma PutUnique(fs: seq<Field>, k: string, v: Value)
    requires UniqueKeys(fs)
    ensures UniqueKeys(Put(fs, k, v))
  {
    HasKeyIff(fs, k);
    if k in Keys(fs) {
      ReplaceUnique(fs, k, v);
    } else {
      InsertUnique(fs, k, v);
    }
  }

  lemma {:induction false} InsertOrdered(fs: seq<Field>, k: string, v: Value)
    requires k !in Keys(fs)
    requires PropertyOrdered(Keys(fs))
    ensures PropertyOrdered(Keys(Insert(fs, k, v)))
  {
    if fs == [] {
      assert Keys([Field(k, v)]) == [k];
    } else {
      assert Keys(fs) == [fs[0].key] + Keys(fs[1..]);
      OrderedHead(fs);
      if Before(k, fs[0].key) {
        forall x | x in Keys(fs) ensures !Before(x, k) {
          if x != fs[0].key {
            assert !Before(x, fs[0].key);
          }
        }
        OrderedCons(Field(k, v), fs);
      } else {
        InsertOrdered(fs[1..], k, v);
        InsertProps(fs[1..], k, v);
        OrderedCons(fs[0], Insert(fs[1..], k, v));
      }
    }
  }

  /** Assignment keeps the properties in enumeration order. */
  lemma PutOrdered(fs: seq<Field>, k: string, v: Value)
    requires PropertyOrdered(Keys(fs))
    ensures PropertyOrdered(Keys(Put(fs, k, v)))
  {
    HasKeyIff(fs, k);
    if k in Keys(fs) {
      ReplaceProps(fs, k, v);
    } else {
      InsertOrdered(fs, k, v);
    }
  }

  /** A new key that enumerates after every present one is appended. */
  lemma {:induction false} InsertAppends(fs: seq<Field>, k: string, v: Value)
    requires forall i :: 0 <= i < |fs| ==> !Before(k, fs[i].key)
    ensures Insert(fs, k, v) == fs + [Field(k, v)]
  {
    if fs != [] {
      InsertAppends(fs[1..], k, v);
      assert fs == [fs[0]] + fs[1..];
    }
  }

  /** With the keys in enumeration order, assigning a new key appends it. */
  lemma PutAppends(fs: seq<Field>, k: string, v: Value)
    requires k !in Keys(fs)
    requires PropertyOrdered(Keys(fs) + [k])
    ensures Put(fs, k, v) == fs + [Field(k, v)]
  {
    var ks := Keys(fs) + [k];
    forall i | 0 <= i < |fs| ensures !Before(k, fs[i].key) {
      assert ks[i] == fs[i].key && ks[|fs|] == k;
    }
    HasKeyIff(fs, k);
    InsertAppends(fs, k, v);
  }

  /** Every value of an assignment result is an old value or the new one. */
  lemma {:induction false} ValuesOfPut(fs: seq<Field>, k: string, v: Value, i: nat)
    requires i < |Put(fs, k, v)|
    ensures Put(fs, k, v)[i].val == v || exists j :: 0 <= j < |fs| && Put(fs, k, v)[i].val == fs[j].val
  {
    if HasKey(fs, k) {
      ValuesOfReplace(fs, k, v, i);
    } else {
      ValuesOfInsert(fs, k, v, i);
    }
  }

  lemma {:induction false} ValuesOfReplace(fs: seq<Field>, k: string, v: Value, i: nat)
    requires i < |Replace(fs, k, v)|
    ensures Replace(fs, k, v)[i].val == v || exists j :: 0 <= j < |fs| && Replace(fs, k, v)[i].val == fs[j].val
  {
    if fs[0].key != k && i > 0 {
      ValuesOfReplace(fs[1..], k, v, i - 1);
      if Replace(fs, k, v)[i].val != v {
        var j :| 0 <= j < |fs[1..]| && Replace(fs[1..], k, v)[i - 1].val == fs[1..][j].val;
        assert Replace(fs, k, v)[i].val == fs[j + 1].val;
      }
    } else if fs[0].key == k && i > 0 {
      assert Replace(fs, k, v)[i] == fs[i];
    }
  }

  lemma {:induction false} ValuesOfInsert(fs: seq<Field>, k: string, v: Value, i: nat)
    requires i < |Insert(fs, k, v)|
    ensures Insert(fs, k, v)[i].val == v || exists j :: 0 <= j < |fs| && Insert(fs, k, v)[i].val == fs[j].val
  {
    if fs != [] {
      if Before(k, fs[0].key) {
        if i > 0 {
          assert Insert(fs, k, v)[i] == fs[i - 1];
        }
      } else if i > 0 {
        ValuesOfInsert(fs[1..], k, v, i - 1);
        if Insert(fs, k, v)[i].val != v {
          var j :| 0 <= j < |fs[1..]| && Insert(fs[1..], k, v)[i - 1].val == fs[1..][j].val;
          assert Insert(fs, k, v)[i].val == fs[j + 1].val;
        }
      }
    }
  }

  // ---------------------------------------------------------------------------
  // A run of assignments `o[k1] = v1; o[k2] = v2; …` into an empty object.

  function AssignAll(fs: seq<Field>): seq<Field> {
    if fs == [] then []
    else Put(AssignAll(fs[..|fs| - 1]), fs[|fs| - 1].key, fs[|fs| - 1].val)
  }

  lemma {:induction false} AssignAllWellFormed(fs: seq<Field>)
    ensures WellFormed(AssignAll(fs))
  {
    if fs == [] {
      assert Keys([]) == [];
    } else {
      var init, last := fs[..|fs| - 1], fs[|fs| - 1];
      AssignAllWellFormed(init);
      PutUnique(AssignAll(init), last.key, last.val);
      PutOrdered(AssignAll(init), last.key, last.val);
    }
  }

  lemma {:induction false} AssignAllKeys(fs: seq<Field>)
    ensures forall x :: x in Keys(AssignAll(fs)) <==> x in Keys(fs)
  {
    if fs == [] {
      assert Keys([]) == [];
    } else {
      var init, last := fs[..|fs| - 1], fs[|fs| - 1];
      AssignAllKeys(init);
      PutProps(AssignAll(init), last.key, last.val);
      assert Keys(fs) == Keys(init) + [last.key];
    }
  }

  /** The last assignment to a key decides its value. */
  lemma {:induction false} AssignAllLastWins(fs: seq<Field>, i: nat)
    requires i < |fs|
    requires forall j :: i < j < |fs| ==> fs[j].key != fs[i].key
    ensures Get(AssignAll(fs), fs[i].key) == fs[i].val
  {
    var init, last := fs[..|fs| - 1], fs[|fs| - 1];
    PutProps(AssignAll(init), last.key, last.val);
    if i < |init| {
      assert init[i] == fs[i];
      assert forall j :: i < j < |init| ==> init[j] == fs[j];
      AssignAllLastWins(init, i);
    }
  }

  /** Every value in the result was assigned by some step. */
  lemma {:induction false} AssignAllValues(fs: seq<Field>, i: nat)
    requires i < |AssignAll(fs)|
    ensures exists j :: 0 <= j < |fs| && AssignAll(fs)[i].val == fs[j].val
  {
    var init, last := fs[..|fs| - 1], fs[|fs| - 1];
    ValuesOfPut(AssignAll(init), last.key, last.val, i);
    if AssignAll(fs)[i].val != last.val {
      var j :| 0 <= j < |AssignAll(init)| && AssignAll(fs)[i].val == AssignAll(init)[j].val;
      AssignAllValues(init, j);
      var j' :| 0 <= j' < |init| && AssignAll(init)[j].val == init[j'].val;
      assert init[j'] == fs[j'];
    }
  }

  /** The distinct keys of ks, each where it first occurs. */
  function FirstOccurrences(ks: seq<string>): seq<string> {
    if ks == [] then []
    else
      var init := FirstOccurrences(ks[..|ks| - 1]);
      if ks[|ks| - 1] in ks[..|ks| - 1] then init else init + [ks[|ks| - 1]]
  }

  /** Without array-index keys, a run of assignments lists each key where it was first assigned. */
  lemma {:induction false} AssignAllFirstOccurrence(fs: seq<Field>)
    requires forall i :: 0 <= i < |fs| ==> !IsArrayIndex(fs[i].key)
    ensures Keys(AssignAll(fs)) == FirstOccurrences(Keys(fs))
  {
    if fs != [] {
      var init, last := fs[..|fs| - 1], fs[|fs| - 1];
      AssignAllFirstOccurrence(init);
      assert Keys(fs)[..|fs| - 1] == Keys(init);
      assert Keys(fs)[|fs| - 1] == last.key;
      var a := AssignAll(init);
      AssignAllKeys(init);
      HasKeyIff(a, last.key);
      if last.key in Keys(init) {
        ReplaceProps(a, last.key, last.val);
      } else {
        InsertAppends(a, last.key, last.val);
        assert Keys(a + [last]) == Keys(a) + [last.key];
      }
    }
  }

  /** The keys of ks that are not array indices, in order. */
  function StringKeys(ks: seq<string>): seq<string> {
    if ks == [] then []
    else (if IsArrayIndex(ks[0]) then [] else [ks[0]]) + StringKeys(ks[1..])
  }

  lemma {:induction false} StringKeysAppend(a: seq<string>, b: seq<string>)
    ensures StringKeys(a + b) == StringKeys(a) + StringKeys(b)
  {
    if a != [] {
      assert (a + b)[1..] == a[1..] + b;
      StringKeysAppend(a[1..], b);
    } else {
      assert a + b == b;
    }
  }

  lemma {:induction false} StringKeysHas(ks: seq<string>, k: string)
    requires !IsArrayIndex(k)
    ensures k in StringKeys(ks) <==> k in ks
  {
    if ks != [] {
      StringKeysHas(ks[1..], k);
      assert ks == [ks[0]] + ks[1..];
    }
  }

  /** A new array-index key lands among the index keys and leaves the order of the others alone. */
  lemma {:induction false} InsertIndexKey(fs: seq<Field>, k: string, v: Value)
    requires IsArrayIndex(k)
    ensures StringKeys(Keys(Insert(fs, k, v))) == StringKeys(Keys(fs))
  {
    if fs == [] {
    } else if Before(k, fs[0].key) {
      KeysCons(Field(k, v), fs);
    } else {
      InsertIndexKey(fs[1..], k, v);
      KeysCons(fs[0], Insert(fs[1..], k, v));
      KeysCons(fs[0], fs[1..]);
      assert fs == [fs[0]] + fs[1..];
    }
  }

  /** Assigning an array-index key leaves the order of the other keys alone. */
  lemma PutIndexKey(fs: seq<Field>, k: string, v: Value)
    requires IsArrayIndex(k)
    ensures StringKeys(Keys(Put(fs, k, v))) == StringKeys(Keys(fs))
  {
    HasKeyIff(fs, k);
    if HasKey(fs, k) {
      ReplaceProps(fs, k, v);
    } else {
      InsertIndexKey(fs, k, v);
    }
  }

  /** Assigning any other key keeps it in place if present and otherwise appends it. */
  lemma PutStringKey(fs: seq<Field>, k: string, v: Value)
    requires !IsArrayIndex(k)
    ensures StringKeys(Keys(Put(fs, k, v))) ==
      if k in Keys(fs) then StringKeys(Keys(fs)) else StringKeys(Keys(fs)) + [k]
  {
    HasKeyIff(fs, k);
    if HasKey(fs, k) {
      ReplaceProps(fs, k, v);
    } else {
      InsertAppends(fs, k, v);
      assert Keys(fs + [Field(k, v)]) == Keys(fs) + [k];
      StringKeysAppend(Keys(fs), [k]);
    }
  }

  lemma {:induction false} FirstOccurrencesSnoc(ks: seq<string>, k: string)
    ensures FirstOccurrences(ks + [k]) ==
      if k in ks then FirstOccurrences(ks) else FirstOccurrences(ks) + [k]
  {
    assert (ks + [k])[..|ks + [k]| - 1] == ks;
  }

  /**
   * In a run of assignments the keys that are not array indices are listed
   * where they were first assigned; the index keys come before them, in
   * numeric order (AssignAllWellFormed).
   */
  lemma {:induction false} AssignAllStringKeyOrder(fs: seq<Field>)
    ensures StringKeys(Keys(AssignAll(fs))) == FirstOccurrences(StringKeys(Keys(fs)))
  {
    if fs != [] {
      var init, last := fs[..|fs| - 1], fs[|fs| - 1];
      var k := last.key;
      AssignAllStringKeyOrder(init);
      var a := AssignAll(init);
      assert AssignAll(fs) == Put(a, k, last.val);
      assert Keys(fs) == Keys(init) + [k];
      StringKeysAppend(Keys(init), [k]);
      var S := StringKeys(Keys(init));
      if IsArrayIndex(k) {
        assert StringKeys([k]) == [];
        assert StringKeys(Keys(fs)) == S;
        PutIndexKey(a, k, last.val);
      } else {
        assert StringKeys([k]) == [k];
        assert StringKeys(Keys(fs)) == S + [k];
        FirstOccurrencesSnoc(S, k);
        AssignAllKeys(init);
        StringKeysHas(Keys(init), k);
        assert k in Keys(a) <==> k in S;
        PutStringKey(a, k, last.val);
      }
    }
  }

  /** Assigning distinct keys in enumeration order rebuilds exactly that object. */
  lemma {:induction false} AssignAllIdentity(fs: seq<Field>)
    requires WellFormed(fs)
    ensures AssignAll(fs) == fs
  {
    if fs != [] {
      var init, last := fs[..|fs| - 1], fs[|fs| - 1];
      assert Keys(fs) == Keys(init) + [last.key];
      assert WellFormed(init) by {
        assert Keys(init) == Keys(fs)[..|fs| - 1];
      }
      AssignAllIdentity(init);
      assert last.key !in Keys(init) by {
        forall i | 0 <= i < |init| ensures Keys(init)[i] != last.key {
          assert init[i] == fs[i];
        }
      }
      PutAppends(init, last.key, last.val);
      assert init + [last] == fs;
    }
  }

  /** Keys that do not start with a digit are never array indices. */
  lemma NotIndex(k: string)
    requires k != [] && !IsDigit(k[0])
    ensures !IsArrayIndex(k)
  {
  }

  // ---------------------------------------------------------------------------
  // Plain objects the connector updates in place.

  /** A well-formed property list: each key once, listed in enumeration order. */
  predicate WellFormed(fs: seq<Field>) {
    UniqueKeys(fs) && PropertyOrdered(Keys(fs))
  }

  /** A mutable plain object, such as `filter.where` or the `data` passed to `create`. */
  class JsObject {
    var fields: seq<Field>

    predicate Valid()
      reads this
    {
      WellFormed(fields)
    }

    constructor (fs: seq<Field>)
      requires WellFormed(fs)
      ensures Valid() && fields == fs
    {
      fields := fs;
    }
  }
}
