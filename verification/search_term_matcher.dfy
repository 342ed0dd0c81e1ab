/**
 * The search-term check against a node's serialized properties: a depth-first,
 * left-to-right walk over the property values that stops at the first match
 * and fails on the first leaf of a type it has no rule for.
 */
module SearchTermMatcher {

  import opened Wrappers
  import opened Text
  import opened PropertyValues

  datatype SearchTerm = SearchTerm(term: string)

  /** The `InvalidArgumentException` for a value type without a matching rule, with its debug type name. */
  datatype MatchError = UnsupportedType(debugType: string)

  /** A node, seen through its serialized properties. */
  datatype Node = Node(properties: SerializedPropertyValues)

  /** The rule for a single non-array value. */
  function MatchesLeaf(v: Value, t: SearchTerm): Result<bool, MatchError>
    requires !v.Arr?
  {
    match v
    case Str(s) => Ok(ContainsCaseInsensitive(s, t.term))
    case Int(i) => Ok(IsInfix(t.term, IntToDecimal(i)))
    case Float(rendered) => Ok(IsInfix(t.term, rendered))
    case Bool(b) => Ok(if b then t.term == "true" else t.term == "false")
    case Null => Err(UnsupportedType("null"))
    case Object(className) => Err(UnsupportedType(className))
  }

  /** `matchesValue`: arrays match when some element does, in order, stopping at the first match. */
  function MatchesValue(v: Value, t: SearchTerm): Result<bool, MatchError>
    decreases v, 1
  {
    if v.Arr? then MatchesEntriesFrom(v, 0, t) else MatchesLeaf(v, t)
  }

  function MatchesEntriesFrom(v: Value, i: nat, t: SearchTerm): Result<bool, MatchError>
    requires v.Arr? && i <= |v.entries|
    decreases v, 0, |v.entries| - i
  {
    if i == |v.entries| then Ok(false)
    else
      var matched :- MatchesValue(v.entries[i].value, t);
      if matched then Ok(true) else MatchesEntriesFrom(v, i + 1, t)
  }

  /** `matchesSerializedPropertyValues`: some property value matches, in order, stopping at the first match. */
  function MatchesSerializedPropertyValues(properties: SerializedPropertyValues, t: SearchTerm): Result<bool, MatchError>
    decreases |properties|
  {
    if |properties| == 0 then Ok(false)
    else
      var matched :- MatchesValue(properties[0].serialized.value, t);
      if matched then Ok(true) else MatchesSerializedPropertyValues(properties[1..], t)
  }

  /**
   * `matchesNode`: the check on the node's serialized properties. It fails only
   * if some leaf of a property value is unsupported; over supported leaves it
   * matches exactly when some leaf matches by its own rule.
   */
  function MatchesNode(node: Node, t: SearchTerm): (r: Result<bool, MatchError>)
    ensures r.Err? ==>
      exists k :: 0 <= k < |PropertyLeaves(node.properties)| && !Supported(PropertyLeaves(node.properties)[k])
    ensures (forall k :: 0 <= k < |PropertyLeaves(node.properties)| ==> Supported(PropertyLeaves(node.properties)[k])) ==>
      r == Ok(exists k :: 0 <= k < |PropertyLeaves(node.properties)| && MatchesLeaf(PropertyLeaves(node.properties)[k], t) == Ok(true))
  {
    PropertiesScanLeaves(node.properties, t);
    ScanLeavesReference(PropertyLeaves(node.properties), t);
    MatchesSerializedPropertyValues(node.properties, t)
  }

  // ---------------------------------------------------------------------------
  // Rules for single values

  /** A string matches iff the term occurs in it, ignoring case. */
  lemma StringMatchesIffTermOccursIgnoringCase(s: string, t: SearchTerm)
    ensures MatchesValue(Str(s), t).Ok?
    ensures MatchesValue(Str(s), t).value <==> exists i :: OccursAt(Lower(t.term), Lower(s), i)
  {
    InfixIffOccurs(Lower(t.term), Lower(s));
  }

  /** An integer matches iff the term occurs in its decimal rendering. */
  lemma IntMatchesIffTermOccursInDecimal(n: int, t: SearchTerm)
    ensures MatchesValue(Int(n), t).Ok?
    ensures MatchesValue(Int(n), t).value <==> exists i :: OccursAt(t.term, IntToDecimal(n), i)
  {
    InfixIffOccurs(t.term, IntToDecimal(n));
  }

  /** `true` matches only the term "true", `false` only the term "false". */
  lemma BooleanMatchesOnlyItsName(b: bool, t: SearchTerm)
    ensures MatchesValue(Bool(b), t) == Ok(t.term == (if b then "true" else "false"))
  {
  }

  /** Null and objects have no rule and fail. */
  lemma UnsupportedLeafFails(v: Value, t: SearchTerm)
    requires v.Null? || v.Object?
    ensures MatchesValue(v, t).Err?
  {
  }

  // ---------------------------------------------------------------------------
  // Arrays and property lists: the first decisive element decides

  /** The elements from `i` on decide: all false gives false, otherwise the first non-false one wins. */
  lemma {:induction false} EntriesFirstDecisive(v: Value, i: nat, t: SearchTerm)
    requires v.Arr? && i <= |v.entries|
    ensures MatchesEntriesFrom(v, i, t) == Ok(false)
      <==> forall k :: i <= k < |v.entries| ==> MatchesValue(v.entries[k].value, t) == Ok(false)
    ensures forall k :: (
      i <= k < |v.entries|
      && MatchesValue(v.entries[k].value, t) != Ok(false)
      && (forall j :: i <= j < k ==> MatchesValue(v.entries[j].value, t) == Ok(false))
      ==> MatchesEntriesFrom(v, i, t) == MatchesValue(v.entries[k].value, t))
    decreases |v.entries| - i
  {
    if i < |v.entries| {
      EntriesFirstDecisive(v, i + 1, t);
    }
  }

  /**
   * An array matches iff some element matches, an empty array never does, and
   * the first element that matches or fails decides the outcome.
   */
  lemma ArrayMatchesIffSomeElementMatches(entries: seq<ArrayEntry>, t: SearchTerm)
    ensures MatchesValue(Arr(entries), t) == Ok(false)
      <==> forall k :: 0 <= k < |entries| ==> MatchesValue(entries[k].value, t) == Ok(false)
    ensures MatchesValue(Arr(entries), t) == Ok(true)
      ==> exists k :: 0 <= k < |entries| && MatchesValue(entries[k].value, t) == Ok(true)
    ensures forall k :: (
      0 <= k < |entries|
      && MatchesValue(entries[k].value, t) != Ok(false)
      && (forall j :: 0 <= j < k ==> MatchesValue(entries[j].value, t) == Ok(false))
      ==> MatchesValue(Arr(entries), t) == MatchesValue(entries[k].value, t))
    ensures |entries| == 0 ==> MatchesValue(Arr(entries), t) == Ok(false)
  {
    var v := Arr(entries);
    EntriesFirstDecisive(v, 0, t);
    if MatchesValue(v, t) == Ok(true) {
      var k := FirstNonFalseEntry(v, 0, t);
    }
  }

  /** The position of the element that decided a non-false outcome. */
  lemma {:induction false} FirstNonFalseEntry(v: Value, i: nat, t: SearchTerm) returns (k: nat)
    requires v.Arr? && i <= |v.entries|
    requires MatchesEntriesFrom(v, i, t) != Ok(false)
    ensures i <= k < |v.entries|
    ensures MatchesValue(v.entries[k].value, t) == MatchesEntriesFrom(v, i, t)
    ensures forall j :: i <= j < k ==> MatchesValue(v.entries[j].value, t) == Ok(false)
    decreases |v.entries| - i
  {
    if MatchesValue(v.entries[i].value, t) != Ok(false) {
      k := i;
    } else {
      k := FirstNonFalseEntry(v, i + 1, t);
    }
  }

  /** Once a prefix of an array matches, nothing appended after it is examined. */
  lemma ArrayShortCircuits(first: seq<ArrayEntry>, rest: seq<ArrayEntry>, t: SearchTerm)
    requires MatchesValue(Arr(first), t) == Ok(true)
    ensures MatchesValue(Arr(first + rest), t) == Ok(true)
  {
    var k := FirstNonFalseEntry(Arr(first), 0, t);
    var all := first + rest;
    assert all[k] == first[k];
    assert forall j :: 0 <= j < k ==> all[j] == first[j];
    ArrayMatchesIffSomeElementMatches(all, t);
  }

  /** The properties decide like array elements: all false gives false, otherwise the first non-false one. */
  lemma {:induction false} PropertiesFirstDecisive(properties: SerializedPropertyValues, t: SearchTerm)
    ensures MatchesSerializedPropertyValues(properties, t) == Ok(false)
      <==> forall k :: 0 <= k < |properties| ==> MatchesValue(properties[k].serialized.value, t) == Ok(false)
    ensures forall k :: (
      0 <= k < |properties|
      && MatchesValue(properties[k].serialized.value, t) != Ok(false)
      && (forall j :: 0 <= j < k ==> MatchesValue(properties[j].serialized.value, t) == Ok(false))
      ==> MatchesSerializedPropertyValues(properties, t) == MatchesValue(properties[k].serialized.value, t))
    decreases |properties|
  {
    if |properties| > 0 {
      var tail := properties[1..];
      PropertiesFirstDecisive(tail, t);
      assert forall k :: 1 <= k < |properties| ==> properties[k] == tail[k - 1];
    }
  }

  /** With no properties nothing matches; otherwise the node matches iff some property value does. */
  lemma PropertiesMatchIffSomeValueMatches(properties: SerializedPropertyValues, t: SearchTerm)
    ensures |properties| == 0 ==> MatchesSerializedPropertyValues(properties, t) == Ok(false)
    ensures MatchesSerializedPropertyValues(properties, t).Ok? ==>
      (MatchesSerializedPropertyValues(properties, t).value <==>
        exists k :: 0 <= k < |properties| && MatchesValue(properties[k].serialized.value, t) == Ok(true))
  {
    PropertiesFirstDecisive(properties, t);
    if MatchesSerializedPropertyValues(properties, t) == Ok(true) {
      var k := FirstNonFalseProperty(properties, t);
    }
  }

  lemma {:induction false} FirstNonFalseProperty(properties: SerializedPropertyValues, t: SearchTerm) returns (k: nat)
    requires MatchesSerializedPropertyValues(properties, t) != Ok(false)
    ensures k < |properties|
    ensures MatchesValue(properties[k].serialized.value, t) == MatchesSerializedPropertyValues(properties, t)
    ensures forall j :: 0 <= j < k ==> MatchesValue(properties[j].serialized.value, t) == Ok(false)
    decreases |properties|
  {
    if MatchesValue(properties[0].serialized.value, t) != Ok(false) {
      k := 0;
    } else {
      var tail := properties[1..];
      var k' := FirstNonFalseProperty(tail, t);
      k := k' + 1;
      assert forall j :: 1 <= j < k ==> properties[j] == tail[j - 1];
    }
  }

  /**
   * Once a property matches, later properties are not examined: an
   * unsupported value after it causes no error.
   */
  lemma PropertiesShortCircuit(first: SerializedPropertyValues, rest: SerializedPropertyValues, t: SearchTerm)
    requires MatchesSerializedPropertyValues(first, t) == Ok(true)
    ensures MatchesSerializedPropertyValues(first + rest, t) == Ok(true)
  {
    var k := FirstNonFalseProperty(first, t);
    var all := first + rest;
    assert all[k] == first[k];
    assert forall j :: 0 <= j < k ==> all[j] == first[j];
    PropertiesFirstDecisive(all, t);
  }

  // ---------------------------------------------------------------------------
  // Reference reading: a left-to-right scan over the leaves of the value tree

  predicate AllLeaves(leaves: seq<Value>) {
    forall k :: 0 <= k < |leaves| ==> !leaves[k].Arr?
  }

  /** The non-array values of a tree in depth-first, left-to-right order. */
  function Leaves(v: Value): (r: seq<Value>)
    ensures AllLeaves(r)
    decreases v, 1
  {
    if v.Arr? then LeavesFrom(v, 0) else [v]
  }

  function LeavesFrom(v: Value, i: nat): (r: seq<Value>)
    requires v.Arr? && i <= |v.entries|
    ensures AllLeaves(r)
    decreases v, 0, |v.entries| - i
  {
    if i == |v.entries| then [] else Leaves(v.entries[i].value) + LeavesFrom(v, i + 1)
  }

  function PropertyLeaves(properties: SerializedPropertyValues): (r: seq<Value>)
    ensures AllLeaves(r)
    decreases |properties|
  {
    if |properties| == 0 then [] else Leaves(properties[0].serialized.value) + PropertyLeaves(properties[1..])
  }

  /** Scan the leaves in order: the first matching leaf gives true, the first unsupported one an error. */
  function ScanLeaves(leaves: seq<Value>, t: SearchTerm): Result<bool, MatchError>
    requires AllLeaves(leaves)
    decreases |leaves|
  {
    if |leaves| == 0 then Ok(false)
    else
      var matched :- MatchesLeaf(leaves[0], t);
      if matched then Ok(true) else ScanLeaves(leaves[1..], t)
  }

  lemma {:induction false} ScanLeavesAppend(a: seq<Value>, b: seq<Value>, t: SearchTerm)
    requires AllLeaves(a) && AllLeaves(b)
    ensures ScanLeaves(a + b, t) == if ScanLeaves(a, t) == Ok(false) then ScanLeaves(b, t) else ScanLeaves(a, t)
    decreases |a|
  {
    if |a| == 0 {
      assert a + b == b;
    } else {
      assert (a + b)[1..] == a[1..] + b;
      ScanLeavesAppend(a[1..], b, t);
    }
  }

  /** The recursive matcher is exactly the left-to-right scan over the leaves. */
  lemma {:induction false} MatchesValueScansLeaves(v: Value, t: SearchTerm)
    ensures MatchesValue(v, t) == ScanLeaves(Leaves(v), t)
    decreases v, 1
  {
    if v.Arr? {
      EntriesScanLeaves(v, 0, t);
    }
  }

  lemma {:induction false} EntriesScanLeaves(v: Value, i: nat, t: SearchTerm)
    requires v.Arr? && i <= |v.entries|
    ensures MatchesEntriesFrom(v, i, t) == ScanLeaves(LeavesFrom(v, i), t)
    decreases v, 0, |v.entries| - i
  {
    if i < |v.entries| {
      var child := v.entries[i].value;
      MatchesValueScansLeaves(child, t);
      EntriesScanLeaves(v, i + 1, t);
      ScanLeavesAppend(Leaves(child), LeavesFrom(v, i + 1), t);
    }
  }

  /** Matching the properties is the same scan over all their leaves. */
  lemma {:induction false} PropertiesScanLeaves(properties: SerializedPropertyValues, t: SearchTerm)
    ensures MatchesSerializedPropertyValues(properties, t) == ScanLeaves(PropertyLeaves(properties), t)
    decreases |properties|
  {
    if |properties| > 0 {
      MatchesValueScansLeaves(properties[0].serialized.value, t);
      PropertiesScanLeaves(properties[1..], t);
      ScanLeavesAppend(Leaves(properties[0].serialized.value), PropertyLeaves(properties[1..]), t);
    }
  }

  predicate Supported(leaf: Value) {
    !leaf.Null? && !leaf.Object?
  }

  /**
   * A scan fails only on an unsupported leaf; over supported leaves it answers
   * whether some leaf matches.
   */
  lemma {:induction false} ScanLeavesReference(leaves: seq<Value>, t: SearchTerm)
    requires AllLeaves(leaves)
    ensures ScanLeaves(leaves, t).Err? ==> exists k :: 0 <= k < |leaves| && !Supported(leaves[k])
    ensures (forall k :: 0 <= k < |leaves| ==> Supported(leaves[k])) ==>
      ScanLeaves(leaves, t) == Ok(exists k :: 0 <= k < |leaves| && MatchesLeaf(leaves[k], t) == Ok(true))
    decreases |leaves|
  {
    if |leaves| > 0 {
      var tail := leaves[1..];
      ScanLeavesReference(tail, t);
      assert forall k :: 1 <= k < |leaves| ==> leaves[k] == tail[k - 1];
      if ScanLeaves(leaves, t).Err? && MatchesLeaf(leaves[0], t).Ok? {
        var k :| 0 <= k < |tail| && !Supported(tail[k]);
        assert !Supported(leaves[k + 1]);
      }
      if forall k :: 0 <= k < |leaves| ==> Supported(leaves[k]) {
        if MatchesLeaf(leaves[0], t) != Ok(true) {
          assert MatchesLeaf(leaves[0], t) == Ok(false);
          if exists k :: 0 <= k < |leaves| && MatchesLeaf(leaves[k], t) == Ok(true) {
            var k :| 0 <= k < |leaves| && MatchesLeaf(leaves[k], t) == Ok(true);
            assert MatchesLeaf(tail[k - 1], t) == Ok(true);
          }
        }
      }
    }
  }

  /**
   * The matcher fails only when the tree holds an unsupported leaf; when every
   * leaf is supported it reports whether some leaf matches the term.
   */
  lemma MatchesValueReference(v: Value, t: SearchTerm)
    ensures MatchesValue(v, t).Err? ==> exists k :: 0 <= k < |Leaves(v)| && !Supported(Leaves(v)[k])
    ensures (forall k :: 0 <= k < |Leaves(v)| ==> Supported(Leaves(v)[k])) ==>
      MatchesValue(v, t) == Ok(exists k :: 0 <= k < |Leaves(v)| && MatchesLeaf(Leaves(v)[k], t) == Ok(true))
  {
    MatchesValueScansLeaves(v, t);
    ScanLeavesReference(Leaves(v), t);
  }
}
