/**
 * Parsing of the ORM's `order` filter into the store's sort specification
 * (lib/tingodb.js:166-182): a string is split on commas, each key may end in
 * whitespace followed by ASC or DESC, and the sort object maps each trimmed
 * key without that suffix to 1 or -1.
 */
module Order {
  import opened Wrappers
  import opened JsValues

  // ---------------------------------------------------------------------------
  // Strings: whitespace, trimming, splitting.

  /** The characters `\s` matches and `trim` removes (WhiteSpace and LineTerminator). */
  predicate IsSpace(c: char) {
    || c == ' ' || c == '\t' || c == '\n' || c == '\r'
    || c == '\U{B}' || c == '\U{C}' || c == '\U{A0}' || c == '\U{1680}'
    || ('\U{2000}' <= c <= '\U{200A}')
    || c == '\U{2028}' || c == '\U{2029}' || c == '\U{202F}' || c == '\U{205F}'
    || c == '\U{3000}' || c == '\U{FEFF}'
  }

  predicate AllSpace(s: string) {
    forall i :: 0 <= i < |s| ==> IsSpace(s[i])
  }

  function TrimStart(s: string): string {
    if s != [] && IsSpace(s[0]) then TrimStart(s[1..]) else s
  }

  function TrimEnd(s: string): string {
    if s != [] && IsSpace(s[|s| - 1]) then TrimEnd(s[..|s| - 1]) else s
  }

  /** `String.prototype.trim`. */
  function Trim(s: string): string {
    TrimEnd(TrimStart(s))
  }

  /** The number of whitespace characters at the end of s. */
  function TrailingSpaces(s: string): (n: nat)
    ensures n <= |s|
  {
    if s != [] && IsSpace(s[|s| - 1]) then 1 + TrailingSpaces(s[..|s| - 1]) else 0
  }

  function IndexOfComma(s: string): (i: nat)
    requires ',' in s
    ensures i < |s| && s[i] == ',' && ',' !in s[..i]
  {
    if s[0] == ',' then 0
    else
      assert ',' in s[1..] by {
        var j :| 0 <= j < |s| && s[j] == ',';
        assert s[1..][j - 1] == ',';
      }
      var i := 1 + IndexOfComma(s[1..]);
      assert s[..i] == [s[0]] + s[1..][..i - 1];
      i
  }

  /** `s.split(',')`. */
  function Split(s: string): seq<string>
    decreases |s|
  {
    if ',' !in s then [s]
    else
      var i := IndexOfComma(s);
      [s[..i]] + Split(s[i + 1..])
  }

  /** `pieces.join(',')`. */
  function Join(pieces: seq<string>): string {
    if pieces == [] then ""
    else if |pieces| == 1 then pieces[0]
    else pieces[0] + "," + Join(pieces[1..])
  }

  lemma {:induction false} SplitStep(s: string)
    requires ',' in s
    ensures Split(s) == [s[..IndexOfComma(s)]] + Split(s[IndexOfComma(s) + 1..])
  {
  }

  /** Splitting on commas yields at least one piece, and no piece holds a comma. */
  lemma {:induction false} SplitPieces(s: string)
    ensures |Split(s)| >= 1
    ensures forall i :: 0 <= i < |Split(s)| ==> ',' !in Split(s)[i]
    decreases |s|
  {
    if ',' in s {
      var i := IndexOfComma(s);
      var rest := Split(s[i + 1..]);
      SplitPieces(s[i + 1..]);
      SplitStep(s);
      forall j | 0 <= j < |Split(s)| ensures ',' !in Split(s)[j] {
        if j > 0 {
          assert Split(s)[j] == rest[j - 1];
        }
      }
    }
  }

  /** Joining the pieces back with commas gives the string that was split. */
  lemma {:induction false} SplitJoin(s: string)
    ensures Join(Split(s)) == s
    decreases |s|
  {
    if ',' in s {
      var i := IndexOfComma(s);
      var tail := s[i + 1..];
      var rest := Split(tail);
      SplitJoin(tail);
      SplitPieces(tail);
      SplitStep(s);
      var pieces := [s[..i]] + rest;
      assert |pieces| > 1 && pieces[0] == s[..i] && pieces[1..] == rest;
      assert Join(pieces) == s[..i] + "," + Join(rest);
      assert s == s[..i] + [s[i]] + tail;
    }
  }

  // ---------------------------------------------------------------------------
  // The `\s+(A|DE)SC$` suffix of one key.

  predicate EndsWith(s: string, w: string) {
    |w| <= |s| && s[|s| - |w|..] == w
  }

  /** The word the suffix ends in: "DESC", "ASC", or "" when the key carries no suffix. */
  function SuffixWord(s: string): (w: string)
    ensures w == "" || w == "ASC" || w == "DESC"
    ensures w != "" ==> EndsWith(s, w) && TrailingSpaces(s[..|s| - |w|]) > 0
  {
    if EndsWith(s, "DESC") && TrailingSpaces(s[..|s| - 4]) > 0 then "DESC"
    else if EndsWith(s, "ASC") && TrailingSpaces(s[..|s| - 3]) > 0 then "ASC"
    else ""
  }

  /**
   * The length of the leftmost match of `\s+(A|DE)SC$`: the suffix word and
   * the whole run of whitespace before it.
   */
  function MatchLength(s: string): (n: nat)
    ensures n <= |s|
  {
    var w := SuffixWord(s);
    if w == "" then 0 else |w| + TrailingSpaces(s[..|s| - |w|])
  }

  /** `m && m[1] === 'DE'`. */
  predicate Descending(s: string) {
    SuffixWord(s) == "DESC"
  }

  /** The sort direction a key asks for. */
  function Direction(s: string): int {
    if Descending(s) then -1 else 1
  }

  /** `key.replace(/\s+(A|DE)SC$/, '').trim()`. */
  function StoredKey(s: string): string {
    Trim(s[..|s| - MatchLength(s)])
  }

  /** A key sorts descending exactly when it ends with at least one whitespace and DESC. */
  lemma DescendingIff(s: string)
    ensures Descending(s) <==>
      exists p :: p != [] && IsSpace(p[|p| - 1]) && s == p + "DESC"
  {
    if Descending(s) {
      var p := s[..|s| - 4];
      assert s == p + "DESC";
    }
    if p :| p != [] && IsSpace(p[|p| - 1]) && s == p + "DESC" {
      assert s[..|s| - 4] == p;
    }
  }

  /** A key with no such suffix (ASC, or none at all) sorts ascending. */
  lemma AscendingOtherwise(s: string)
    ensures Direction(s) == 1 <==> !Descending(s)
    ensures Direction(s) == 1 || Direction(s) == -1
    ensures (exists p :: p != [] && IsSpace(p[|p| - 1]) && s == p + "ASC") ==> Direction(s) == 1
  {
  }

  // Trimming facts.

  lemma {:induction false} TrimStartAllSpace(s: string)
    ensures AllSpace(s) <==> TrimStart(s) == []
  {
    if s != [] && IsSpace(s[0]) {
      TrimStartAllSpace(s[1..]);
      if !AllSpace(s) {
        var i :| 0 <= i < |s| && !IsSpace(s[i]);
        assert s[1..][i - 1] == s[i];
      }
    }
  }

  lemma {:induction false} TrimStartAppend(x: string, sp: string)
    requires !AllSpace(x)
    ensures TrimStart(x + sp) == TrimStart(x) + sp
  {
    assert x != [];
    if IsSpace(x[0]) {
      assert !AllSpace(x[1..]) by {
        var i :| 0 <= i < |x| && !IsSpace(x[i]);
        assert x[1..][i - 1] == x[i];
      }
      assert (x + sp)[1..] == x[1..] + sp;
      TrimStartAppend(x[1..], sp);
    }
  }

  lemma {:induction false} TrimEndAppend(y: string, sp: string)
    requires AllSpace(sp)
    ensures TrimEnd(y + sp) == TrimEnd(y)
    decreases |sp|
  {
    if sp != [] {
      assert (y + sp)[..|y + sp| - 1] == y + sp[..|sp| - 1];
      TrimEndAppend(y, sp[..|sp| - 1]);
    } else {
      assert y + sp == y;
    }
  }

  lemma {:induction false} TrimEndAllSpace(s: string)
    requires AllSpace(s)
    ensures TrimEnd(s) == []
    decreases |s|
  {
    if s != [] {
      TrimEndAllSpace(s[..|s| - 1]);
    }
  }

  /** Whitespace after a string does not survive trimming. */
  lemma TrimAppendSpace(x: string, sp: string)
    requires AllSpace(sp)
    ensures Trim(x + sp) == Trim(x)
  {
    if AllSpace(x) {
      assert AllSpace(x + sp);
      TrimStartAllSpace(x);
      TrimStartAllSpace(x + sp);
    } else {
      TrimStartAppend(x, sp);
      TrimEndAppend(TrimStart(x), sp);
    }
  }

  lemma {:induction false} TrailingSpacesAreSpace(s: string)
    ensures AllSpace(s[|s| - TrailingSpaces(s)..])
    decreases |s|
  {
    if s != [] && IsSpace(s[|s| - 1]) {
      var t := s[..|s| - 1];
      TrailingSpacesAreSpace(t);
      var n := TrailingSpaces(t);
      assert TrailingSpaces(s) == n + 1;
      var u := s[|s| - (n + 1)..];
      forall i | 0 <= i < |u| ensures IsSpace(u[i]) {
        if i < n {
          assert u[i] == t[|t| - n..][i];
        } else {
          assert u[i] == s[|s| - 1];
        }
      }
    }
  }

  lemma {:induction false} TrailingSpacesAtLeast(p: string, sp: string)
    requires AllSpace(sp)
    ensures TrailingSpaces(p + sp) >= |sp|
    decreases |sp|
  {
    if sp != [] {
      assert (p + sp)[..|p + sp| - 1] == p + sp[..|sp| - 1];
      TrailingSpacesAtLeast(p, sp[..|sp| - 1]);
    }
  }

  /** The stored key is the key with its word and the whitespace before it removed, then trimmed. */
  lemma SuffixRemoved(p: string, sp: string, w: string)
    requires sp != [] && AllSpace(sp)
    requires w == "ASC" || w == "DESC"
    ensures StoredKey(p + sp + w) == Trim(p)
    ensures Direction(p + sp + w) == (if w == "DESC" then -1 else 1)
  {
    var s := p + sp + w;
    var x := p + sp;
    assert s[..|s| - |w|] == x;
    TrailingSpacesAtLeast(p, sp);
    assert IsSpace(x[|x| - 1]) by {
      assert x[|x| - 1] == sp[|sp| - 1];
    }
    if w == "ASC" {
      assert !EndsWith(s, "DESC") by {
        assert s[|s| - 4..][1] == 'A';
      }
    }
    assert SuffixWord(s) == w;
    var n := TrailingSpaces(x);
    TrailingSpacesAreSpace(x);
    assert s[..|s| - MatchLength(s)] == x[..|x| - n];
    assert x == x[..|x| - n] + x[|x| - n..];
    TrimAppendSpace(x[..|x| - n], x[|x| - n..]);
    TrimAppendSpace(p, sp);
  }

  /** A key without the suffix is only trimmed. */
  lemma NoSuffixTrimmed(s: string)
    requires SuffixWord(s) == ""
    ensures StoredKey(s) == Trim(s) && Direction(s) == 1
  {
    assert s[..|s|] == s;
  }

  /**
   * Trimming removes whitespace and nothing else, and what it yields neither
   * starts nor ends with whitespace; together these determine `trim()`.
   */
  lemma {:induction false} TrimmedHasNoEdgeSpace(s: string)
    ensures var t := Trim(s); t != [] ==> !IsSpace(t[0]) && !IsSpace(t[|t| - 1])
    ensures exists a, b :: AllSpace(a) && AllSpace(b) && s == a + Trim(s) + b
  {
    TrimStartNoLead(s);
    TrimEndKeepsLead(TrimStart(s));
    TrimEndNoTrail(TrimStart(s));
    var a, b := TrimSurrounded(s);
  }

  /** The whitespace that trimming removes from either end. */
  lemma {:induction false} TrimSurrounded(s: string) returns (a: string, b: string)
    ensures AllSpace(a) && AllSpace(b) && s == a + Trim(s) + b
  {
    var ts := TrimStart(s);
    TrimStartIsSuffix(s);
    TrimEndIsPrefix(ts);
    a, b := s[..|s| - |ts|], ts[|TrimEnd(ts)|..];
    assert s == a + ts;
    assert ts == TrimEnd(ts) + b;
  }

  /** TrimStart drops a run of leading whitespace. */
  lemma {:induction false} TrimStartIsSuffix(s: string)
    ensures |TrimStart(s)| <= |s|
    ensures TrimStart(s) == s[|s| - |TrimStart(s)|..]
    ensures AllSpace(s[..|s| - |TrimStart(s)|])
  {
    if s != [] && IsSpace(s[0]) {
      TrimStartIsSuffix(s[1..]);
      var n := |s| - |TrimStart(s)|;
      assert s[..n] == [s[0]] + s[1..][..n - 1];
    }
  }

  /** TrimEnd drops a run of trailing whitespace. */
  lemma {:induction false} TrimEndIsPrefix(s: string)
    ensures |TrimEnd(s)| <= |s|
    ensures TrimEnd(s) == s[..|TrimEnd(s)|]
    ensures AllSpace(s[|TrimEnd(s)|..])
    decreases |s|
  {
    if s != [] && IsSpace(s[|s| - 1]) {
      var t := s[..|s| - 1];
      TrimEndIsPrefix(t);
      assert s[|TrimEnd(s)|..] == t[|TrimEnd(t)|..] + [s[|s| - 1]];
    }
  }

  lemma {:induction false} TrimStartNoLead(s: string)
    ensures TrimStart(s) != [] ==> !IsSpace(TrimStart(s)[0])
  {
    if s != [] && IsSpace(s[0]) {
      TrimStartNoLead(s[1..]);
    }
  }

  lemma {:induction false} TrimEndNoTrail(s: string)
    ensures TrimEnd(s) != [] ==> !IsSpace(TrimEnd(s)[|TrimEnd(s)| - 1])
    decreases |s|
  {
    if s != [] && IsSpace(s[|s| - 1]) {
      TrimEndNoTrail(s[..|s| - 1]);
    }
  }

  lemma {:induction false} TrimEndKeepsLead(s: string)
    ensures TrimEnd(s) != [] ==> TrimEnd(s)[0] == s[0]
    decreases |s|
  {
    if s != [] && IsSpace(s[|s| - 1]) {
      TrimEndKeepsLead(s[..|s| - 1]);
    }
  }

  // ---------------------------------------------------------------------------
  // The sort object.

  /** The keys `for (index in keys)` visits: the pieces of a string, an array's items, an object's values. */
  function OrderItems(order: Value): (items: seq<Value>)
    ensures order.Str? ==>
      && |items| == |Split(order.s)|
      && forall i :: 0 <= i < |items| ==> items[i] == Str(Split(order.s)[i])
  {
    match order
    case Str(s) => seq(|Split(s)|, i requires 0 <= i < |Split(s)| => Str(Split(s)[i]))
    case Arr(xs) => xs
    case Obj(fields) => seq(|fields|, i requires 0 <= i < |fields| => fields[i].val)
    case _ => []
  }

  /**
   * The keys as strings, in visiting order; the first item that is not a
   * string throws (it has no `match` method).
   */
  function ItemKeys(items: seq<Value>): Result<seq<string>> {
    if items == [] then Ok([])
    else
      match ItemKeys(items[..|items| - 1])
      case Fail(e) => Fail(e)
      case Ok(ks) =>
        var last := items[|items| - 1];
        if last.Str? then Ok(ks + [last.s]) else Fail(NotAString(|items| - 1))
  }

  /** The assignment `args[key] = ±1` one order key asks for. */
  function SortEntry(raw: string): Field {
    Field(StoredKey(raw), Num(Direction(raw)))
  }

  function Entries(keys: seq<string>): (es: seq<Field>)
    ensures |es| == |keys|
  {
    seq(|keys|, i requires 0 <= i < |keys| => SortEntry(keys[i]))
  }

  /** The sort object after the assignments of all keys, in order. */
  function ArgsOf(keys: seq<string>): seq<Field> {
    AssignAll(Entries(keys))
  }

  /** The sort object for the visited items. */
  function SortSpec(items: seq<Value>): Result<seq<Field>> {
    match ItemKeys(items)
    case Fail(e) => Fail(e)
    case Ok(keys) => Ok(ArgsOf(keys))
  }

  /**
   * Visiting succeeds exactly when every item is a string, and then yields
   * those strings in order; otherwise it throws at the first item that is not.
   */
  lemma {:induction false} ItemKeysMeaning(items: seq<Value>)
    ensures ItemKeys(items).Ok? <==> forall i :: 0 <= i < |items| ==> items[i].Str?
    ensures ItemKeys(items).Ok? ==>
      && |ItemKeys(items).value| == |items|
      && forall i :: 0 <= i < |items| ==> ItemKeys(items).value[i] == items[i].s
    ensures ItemKeys(items).Fail? ==>
      exists n :: 0 <= n < |items| && !items[n].Str? && ItemKeys(items).error == NotAString(n)
        && forall i :: 0 <= i < n ==> items[i].Str?
  {
    if items != [] {
      var init, last := items[..|items| - 1], items[|items| - 1];
      ItemKeysMeaning(init);
      assert forall i :: 0 <= i < |init| ==> items[i] == init[i];
      if ItemKeys(init).Fail? {
        var n :| 0 <= n < |init| && !init[n].Str? && ItemKeys(init).error == NotAString(n)
          && forall i :: 0 <= i < n ==> init[i].Str?;
        assert items[n] == init[n];
      }
    }
  }

  /** Once a prefix of the items throws, so does every longer prefix. */
  lemma {:induction false} ItemKeysStayFailed(items: seq<Value>, n: nat)
    requires n <= |items| && ItemKeys(items[..n]).Fail?
    ensures ItemKeys(items) == ItemKeys(items[..n])
    decreases |items| - n
  {
    if n < |items| {
      assert items[..n + 1][..n] == items[..n];
      ItemKeysStayFailed(items, n + 1);
    } else {
      assert items[..n] == items;
    }
  }

  /** The sort object lists each key once, in enumeration order. */
  lemma ArgsWellFormed(keys: seq<string>)
    ensures WellFormed(ArgsOf(keys))
  {
    AssignAllWellFormed(Entries(keys));
  }

  /** The sort object has a key exactly for each stored key. */
  lemma ArgsKeys(keys: seq<string>)
    ensures forall x :: x in Keys(ArgsOf(keys)) <==> exists i :: 0 <= i < |keys| && StoredKey(keys[i]) == x
  {
    var es := Entries(keys);
    AssignAllKeys(es);
    forall x ensures x in Keys(es) <==> exists i :: 0 <= i < |keys| && StoredKey(keys[i]) == x {
      if x in Keys(es) {
        var i :| 0 <= i < |es| && Keys(es)[i] == x;
        assert StoredKey(keys[i]) == x;
      }
      if i :| 0 <= i < |keys| && StoredKey(keys[i]) == x {
        assert Keys(es)[i] == x;
      }
    }
  }

  /** Every entry of the sort object is 1 or -1. */
  lemma ArgsDirections(keys: seq<string>)
    ensures forall i :: 0 <= i < |ArgsOf(keys)| ==> ArgsOf(keys)[i].val == Num(1) || ArgsOf(keys)[i].val == Num(-1)
  {
    var es := Entries(keys);
    forall i | 0 <= i < |ArgsOf(keys)| ensures ArgsOf(keys)[i].val == Num(1) || ArgsOf(keys)[i].val == Num(-1) {
      AssignAllValues(es, i);
    }
  }

  /** No key after position i stores under the same key. */
  predicate LastFor(keys: seq<string>, i: nat)
    requires i < |keys|
  {
    forall j :: i < j < |keys| ==> StoredKey(keys[j]) != StoredKey(keys[i])
  }

  /** A later key with the same stored key overrides an earlier one: the last one decides the direction. */
  lemma ArgsLastWins(keys: seq<string>, i: nat)
    requires i < |keys| && LastFor(keys, i)
    ensures Get(ArgsOf(keys), StoredKey(keys[i])) == Num(Direction(keys[i]))
  {
    var es := Entries(keys);
    assert forall j :: i < j < |es| ==> es[j].key == StoredKey(keys[j]);
    AssignAllLastWins(es, i);
  }

  /**
   * Parsing throws exactly when an item is no string.  Otherwise the sort
   * object has one entry per distinct stored key and no other, listed in
   * enumeration order; each holds 1 or -1, namely the direction of the last
   * item that stores under that key.
   */
  lemma SortSpecMeaning(items: seq<Value>)
    ensures SortSpec(items).Ok? <==> forall i :: 0 <= i < |items| ==> items[i].Str?
    ensures SortSpec(items).Ok? ==>
      var args := SortSpec(items).value;
      && WellFormed(args)
      && (forall x :: x in Keys(args) <==> exists i :: 0 <= i < |items| && StoredKey(items[i].s) == x)
      && (forall i :: 0 <= i < |args| ==> args[i].val == Num(1) || args[i].val == Num(-1))
  {
    ItemKeysMeaning(items);
    if SortSpec(items).Ok? {
      var keys := ItemKeys(items).value;
      ArgsWellFormed(keys);
      ArgsKeys(keys);
      ArgsDirections(keys);
      assert forall i :: 0 <= i < |items| ==> StoredKey(items[i].s) == StoredKey(keys[i]);
    }
  }

  /** The last item that stores under a key decides that key's direction. */
  lemma SortSpecLastWins(items: seq<Value>, i: nat)
    requires SortSpec(items).Ok? && i < |items|
    requires forall j :: 0 <= j < |items| ==> items[j].Str?
    requires forall j :: i < j < |items| ==> StoredKey(items[j].s) != StoredKey(items[i].s)
    ensures Get(SortSpec(items).value, StoredKey(items[i].s)) == Num(Direction(items[i].s))
  {
    ItemKeysMeaning(items);
    var keys := ItemKeys(items).value;
    assert LastFor(keys, i);
    ArgsLastWins(keys, i);
  }

  /**
   * The sort object lists the stored keys in the order they first occur
   * when none of them is an array index (index keys would come first, in
   * numeric order, as `WellFormed` says). This order is the sort priority.
   */
  lemma SortSpecInOrder(items: seq<Value>)
    requires forall i :: 0 <= i < |items| ==> items[i].Str?
    requires forall i :: 0 <= i < |items| ==> !IsArrayIndex(StoredKey(items[i].s))
    ensures SortSpec(items).Ok?
    ensures Keys(SortSpec(items).value) == FirstOccurrences(StoredKeys(items))
  {
    ItemKeysMeaning(items);
    var keys := ItemKeys(items).value;
    var es := Entries(keys);
    AssignAllFirstOccurrence(es);
    assert Keys(es) == StoredKeys(items);
  }

  /**
   * The general order of the sort object: the array-index keys first, in
   * numeric order, then the other stored keys in the order they first occur.
   */
  lemma SortSpecKeyOrder(items: seq<Value>)
    requires forall i :: 0 <= i < |items| ==> items[i].Str?
    ensures SortSpec(items).Ok?
    ensures PropertyOrdered(Keys(SortSpec(items).value))
    ensures StringKeys(Keys(SortSpec(items).value)) == FirstOccurrences(StringKeys(StoredKeys(items)))
  {
    ItemKeysMeaning(items);
    var keys := ItemKeys(items).value;
    var es := Entries(keys);
    AssignAllWellFormed(es);
    AssignAllStringKeyOrder(es);
    assert Keys(es) == StoredKeys(items);
  }

  /** The stored keys of string items, in order. */
  function StoredKeys(items: seq<Value>): seq<string>
    requires forall i :: 0 <= i < |items| ==> items[i].Str?
  {
    seq(|items|, i requires 0 <= i < |items| && items[i].Str? => StoredKey(items[i].s))
  }

  /**
   * When the stored keys are distinct and none is an array index, the sort
   * object is exactly one entry per item, in the items' order.
   */
  lemma SortSpecDistinct(items: seq<Value>)
    requires forall i :: 0 <= i < |items| ==> items[i].Str?
    requires forall i :: 0 <= i < |items| ==> !IsArrayIndex(StoredKey(items[i].s))
    requires forall i, j :: 0 <= i < j < |items| ==> StoredKey(items[i].s) != StoredKey(items[j].s)
    ensures SortSpec(items) == Ok(seq(|items|, i requires 0 <= i < |items| && items[i].Str? =>
      Field(StoredKey(items[i].s), Num(Direction(items[i].s)))))
  {
    ItemKeysMeaning(items);
    var keys := ItemKeys(items).value;
    var es := Entries(keys);
    var want := seq(|items|, i requires 0 <= i < |items| && items[i].Str? =>
      Field(StoredKey(items[i].s), Num(Direction(items[i].s))));
    assert es == want by {
      forall i | 0 <= i < |items| ensures es[i] == want[i] {
        assert keys[i] == items[i].s;
      }
    }
    assert UniqueKeys(es);
    assert PropertyOrdered(Keys(es));
    AssignAllIdentity(es);
  }

  /** One more key is one more assignment to the sort object. */
  lemma {:induction false} ArgsOfSnoc(keys: seq<string>, raw: string)
    ensures ArgsOf(keys + [raw]) == Put(ArgsOf(keys), StoredKey(raw), Num(Direction(raw)))
  {
    var es := Entries(keys + [raw]);
    assert es[..|es| - 1] == Entries(keys);
    assert es[|es| - 1] == SortEntry(raw);
  }

  /** The loop `for (var index in keys)` that fills the sort object. */
  method SortArgs(items: seq<Value>) returns (r: Result<seq<Field>>)
    ensures r == SortSpec(items)
  {
    var args: seq<Field> := [];
    ghost var keys: seq<string> := [];
    var index := 0;
    while index < |items|
      invariant 0 <= index <= |items|
      invariant ItemKeys(items[..index]) == Ok(keys)
      invariant args == ArgsOf(keys)
    {
      assert items[..index + 1][..index] == items[..index];
      var item := items[index];
      if !item.Str? {
        ItemKeysStayFailed(items, index + 1);
        return Fail(NotAString(index));
      }
      var key := StoredKey(item.s);
      if Descending(item.s) {
        args := Put(args, key, Num(-1));
      } else {
        args := Put(args, key, Num(1));
      }
      ArgsOfSnoc(keys, item.s);
      keys := keys + [item.s];
      index := index + 1;
    }
    assert items[..index] == items;
    r := Ok(args);
  }

  /** The sort given to the cursor: none for a falsy order, else the parsed sort object. */
  function SortFor(order: Value): Result<Option<seq<Field>>> {
    if !Truthy(order) then Ok(None)
    else
      match SortSpec(OrderItems(order))
      case Fail(e) => Fail(e)
      case Ok(args) => Ok(Some(args))
  }

  lemma {:induction false} ExampleEntry(k: string)
    requires k == "b" || k == "2"
    ensures SortEntry(k) == Field(k, Num(1))
  {
    assert !EndsWith(k, "DESC") && !EndsWith(k, "ASC");
    NoSuffixTrimmed(k);
    assert TrimStart(k) == k;
    assert TrimEnd(k) == k;
  }

  /** Keys that are array indices enumerate first, so the keys "b" then "2" sort by "2" before "b". */
  lemma ExampleIndexKeyFirst()
    ensures ArgsOf(["b", "2"]) == [Field("2", Num(1)), Field("b", Num(1))]
  {
    ExampleEntry("b");
    ExampleEntry("2");
    var es := Entries(["b", "2"]);
    assert es == [Field("b", Num(1)), Field("2", Num(1))];
    assert es[..1] == [Field("b", Num(1))];
    assert [Field("b", Num(1))][..0] == [];
    assert AssignAll([Field("b", Num(1))]) == [Field("b", Num(1))];
    assert DecimalValue("2") == 2;
    NotIndex("b");
    assert Before("2", "b");
    assert !HasKey([Field("b", Num(1))], "2");
  }
}
