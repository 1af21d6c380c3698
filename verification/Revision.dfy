/** The canonical snapshot of a resolved scope (api/contracts/revision.go). */
module Revision {
  import opened Wrappers
  import opened Strconv
  import opened Order
  import opened GoTime

  const FORMAT_VERSION: Bytes := Ascii("1")
  const ENTITY_SITE: Bytes := Ascii("site")
  const ENTITY_ASSET: Bytes := Ascii("asset")
  const ENTITY_CU: Bytes := Ascii("cu")
  const TAG_SCOPE: Bytes := Ascii("scope")
  const TAG_NODES: Bytes := Ascii("nodes")
  const TAG_CAPABILITIES: Bytes := Ascii("capabilities")
  const TAG_BINDINGS: Bytes := Ascii("bindings")

  datatype Scope = Scope(tenantID: Bytes, scopeType: Bytes, scopeID: Bytes)
  datatype Node = Node(entityType: Bytes, entityID: Bytes, version: Int64)
  datatype Capability = Capability(cuID: Bytes, capabilityID: Bytes, version: Int64)
  datatype Binding = Binding(cuID: Bytes, metricID: Bytes, version: Int64)

  datatype RevisionError =
    | ScopeIdentityRequired
    | InvalidScopeType(scopeType: Bytes)
    | InvalidEntityType(entityType: Bytes)
    | InvalidNodeIdentity
    | InvalidCapability
    | InvalidBinding

  // ----- the three full-key orders -----

  /** Go's < on strings: byte by byte, a proper prefix first. */
  predicate BytesLess(a: Bytes, b: Bytes) {
    if b == [] then false
    else if a == [] then true
    else a[0] < b[0] || (a[0] == b[0] && BytesLess(a[1..], b[1..]))
  }

  predicate KeyLess(a1: Bytes, a2: Bytes, a3: int, b1: Bytes, b2: Bytes, b3: int) {
    if a1 != b1 then BytesLess(a1, b1)
    else if a2 != b2 then BytesLess(a2, b2)
    else a3 < b3
  }

  predicate NodeLess(a: Node, b: Node) {
    KeyLess(a.entityType, a.entityID, a.version, b.entityType, b.entityID, b.version)
  }

  predicate CapabilityLess(a: Capability, b: Capability) {
    KeyLess(a.cuID, a.capabilityID, a.version, b.cuID, b.capabilityID, b.version)
  }

  predicate BindingLess(a: Binding, b: Binding) {
    KeyLess(a.cuID, a.metricID, a.version, b.cuID, b.metricID, b.version)
  }

  lemma {:induction false} BytesLessTransitive(a: Bytes, b: Bytes, c: Bytes)
    requires BytesLess(a, b) && BytesLess(b, c)
    ensures BytesLess(a, c)
  {
    if a != [] && a[0] == b[0] == c[0] {
      BytesLessTransitive(a[1..], b[1..], c[1..]);
    }
  }

  lemma {:induction false} BytesLessTotal(a: Bytes, b: Bytes)
    ensures !BytesLess(a, a)
    ensures BytesLess(a, b) || BytesLess(b, a) || a == b
  {
    if a != [] {
      BytesLessTotal(a[1..], if b == [] then [] else b[1..]);
      if b != [] && a[0] == b[0] && a[1..] == b[1..] {
        assert a == [a[0]] + a[1..] && b == [b[0]] + b[1..];
      }
    }
  }

  lemma KeyLessTransitive(a1: Bytes, a2: Bytes, a3: int, b1: Bytes, b2: Bytes, b3: int, c1: Bytes, c2: Bytes, c3: int)
    requires KeyLess(a1, a2, a3, b1, b2, b3) && KeyLess(b1, b2, b3, c1, c2, c3)
    ensures KeyLess(a1, a2, a3, c1, c2, c3)
  {
    BytesLessTotal(a1, b1);
    BytesLessTotal(a2, b2);
    if a1 != b1 && b1 != c1 {
      BytesLessTransitive(a1, b1, c1);
    }
    if a2 != b2 && b2 != c2 && a1 == b1 == c1 {
      BytesLessTransitive(a2, b2, c2);
    }
  }

  lemma KeyLessTotal(a1: Bytes, a2: Bytes, a3: int, b1: Bytes, b2: Bytes, b3: int)
    ensures !KeyLess(a1, a2, a3, a1, a2, a3)
    ensures KeyLess(a1, a2, a3, b1, b2, b3) || KeyLess(b1, b2, b3, a1, a2, a3) || (a1 == b1 && a2 == b2 && a3 == b3)
  {
    BytesLessTotal(a1, b1);
    BytesLessTotal(a2, b2);
  }

  /** Each of the three comparators orders all fields, so no two different rows tie. */
  lemma ComparatorsAreStrictTotal()
    ensures StrictTotal(NodeLess)
    ensures StrictTotal(CapabilityLess)
    ensures StrictTotal(BindingLess)
  {
    forall x: Node, y: Node, z: Node
      ensures !NodeLess(x, x) && (NodeLess(x, y) || NodeLess(y, x) || x == y)
      ensures NodeLess(x, y) && NodeLess(y, z) ==> NodeLess(x, z)
    {
      KeyLessTotal(x.entityType, x.entityID, x.version, y.entityType, y.entityID, y.version);
      if NodeLess(x, y) && NodeLess(y, z) {
        KeyLessTransitive(x.entityType, x.entityID, x.version, y.entityType, y.entityID, y.version,
                          z.entityType, z.entityID, z.version);
      }
    }
    forall x: Capability, y: Capability, z: Capability
      ensures !CapabilityLess(x, x) && (CapabilityLess(x, y) || CapabilityLess(y, x) || x == y)
      ensures CapabilityLess(x, y) && CapabilityLess(y, z) ==> CapabilityLess(x, z)
    {
      KeyLessTotal(x.cuID, x.capabilityID, x.version, y.cuID, y.capabilityID, y.version);
      if CapabilityLess(x, y) && CapabilityLess(y, z) {
        KeyLessTransitive(x.cuID, x.capabilityID, x.version, y.cuID, y.capabilityID, y.version,
                          z.cuID, z.capabilityID, z.version);
      }
    }
    forall x: Binding, y: Binding, z: Binding
      ensures !BindingLess(x, x) && (BindingLess(x, y) || BindingLess(y, x) || x == y)
      ensures BindingLess(x, y) && BindingLess(y, z) ==> BindingLess(x, z)
    {
      KeyLessTotal(x.cuID, x.metricID, x.version, y.cuID, y.metricID, y.version);
      if BindingLess(x, y) && BindingLess(y, z) {
        KeyLessTransitive(x.cuID, x.metricID, x.version, y.cuID, y.metricID, y.version,
                          z.cuID, z.metricID, z.version);
      }
    }
  }

  // ----- validation -----

  predicate KnownEntity(t: Bytes) {
    t == ENTITY_SITE || t == ENTITY_ASSET || t == ENTITY_CU
  }

  function ScopeError(s: Scope): Option<RevisionError> {
    if s.tenantID == [] || s.scopeType == [] || s.scopeID == [] then Some(ScopeIdentityRequired)
    else if !KnownEntity(s.scopeType) then Some(InvalidScopeType(s.scopeType))
    else None
  }

  /** validateRevisionNode */
  function NodeError(n: Node): Option<RevisionError> {
    if !KnownEntity(n.entityType) then Some(InvalidEntityType(n.entityType))
    else if n.entityID == [] || n.version <= 0 then Some(InvalidNodeIdentity)
    else None
  }

  function CapabilityError(c: Capability): Option<RevisionError> {
    if c.cuID == [] || c.capabilityID == [] || c.version <= 0 then Some(InvalidCapability) else None
  }

  function BindingError(b: Binding): Option<RevisionError> {
    if b.cuID == [] || b.metricID == [] || b.version <= 0 then Some(InvalidBinding) else None
  }

  /** The error of the first row that has one. */
  function FirstError<T>(rows: seq<T>, check: T -> Option<RevisionError>): Option<RevisionError> {
    if rows == [] then None
    else if check(rows[0]).Some? then check(rows[0])
    else FirstError(rows[1..], check)
  }

  lemma {:induction false} FirstErrorSplit<T>(xs: seq<T>, ys: seq<T>, check: T -> Option<RevisionError>)
    ensures FirstError(xs + ys, check) ==
            if FirstError(xs, check).Some? then FirstError(xs, check) else FirstError(ys, check)
  {
    if xs == [] {
      assert xs + ys == ys;
    } else {
      assert (xs + ys)[1..] == xs[1..] + ys;
      FirstErrorSplit(xs[1..], ys, check);
    }
  }

  lemma {:induction false} FirstErrorNone<T>(rows: seq<T>, check: T -> Option<RevisionError>)
    ensures FirstError(rows, check) == None <==> forall r | r in rows :: check(r) == None
  {
    if rows != [] {
      FirstErrorNone(rows[1..], check);
      assert rows == [rows[0]] + rows[1..];
    }
  }

  // ----- the byte stream -----

  /** What appendLenPrefixed adds for one value. */
  function Field(value: Bytes): Bytes {
    Decimal(|value|) + [COLON] + value + [NEWLINE]
  }

  /** The three fields a node, a capability or a binding is written as. */
  datatype Row = Row(first: Bytes, second: Bytes, version: int)

  function RowFields(r: Row): Bytes {
    Field(r.first) + Field(r.second) + Field(FormatInt(r.version))
  }

  /** The encodings of the items, one after the other. */
  function Stream<T>(items: seq<T>, encode: T -> Bytes): Bytes {
    if items == [] then [] else encode(items[0]) + Stream(items[1..], encode)
  }

  function RowsStream(rows: seq<Row>): Bytes {
    Stream(rows, RowFields)
  }

  function Section(tag: Bytes, rows: seq<Row>): Bytes {
    Field(tag) + Field(FormatInt(|rows|)) + RowsStream(rows)
  }

  function ScopeFields(s: Scope): Bytes {
    Field(FORMAT_VERSION) + Field(TAG_SCOPE) + Field(s.tenantID) + Field(s.scopeType) + Field(s.scopeID)
  }

  function NodeRow(n: Node): Row {
    Row(n.entityType, n.entityID, n.version)
  }

  function CapabilityRow(c: Capability): Row {
    Row(c.cuID, c.capabilityID, c.version)
  }

  function BindingRow(b: Binding): Row {
    Row(b.cuID, b.metricID, b.version)
  }

  function Rows<T>(items: seq<T>, row: T -> Row): (rows: seq<Row>)
    ensures |rows| == |items|
    ensures forall i | 0 <= i < |items| :: rows[i] == row(items[i])
  {
    seq(|items|, i requires 0 <= i < |items| => row(items[i]))
  }

  function Encode(s: Scope, nodes: seq<Row>, capabilities: seq<Row>, bindings: seq<Row>): Bytes {
    ScopeFields(s) + Section(TAG_NODES, nodes)
    + Section(TAG_CAPABILITIES, capabilities) + Section(TAG_BINDINGS, bindings)
  }

  /** What ResourceRevision hashes, or the error it returns instead. */
  function CanonicalBytes(s: Scope, nodes: seq<Node>, capabilities: seq<Capability>, bindings: seq<Binding>)
    : Result<Bytes, RevisionError>
  {
    var ns := Sort(nodes, NodeLess);
    var cs := Sort(capabilities, CapabilityLess);
    var bs := Sort(bindings, BindingLess);
    if ScopeError(s).Some? then Err(ScopeError(s).value)
    else if FirstError(ns, NodeError).Some? then Err(FirstError(ns, NodeError).value)
    else if FirstError(cs, CapabilityError).Some? then Err(FirstError(cs, CapabilityError).value)
    else if FirstError(bs, BindingError).Some? then Err(FirstError(bs, BindingError).value)
    else Ok(Encode(s, Rows(ns, NodeRow), Rows(cs, CapabilityRow), Rows(bs, BindingRow)))
  }

  // ----- the encoder as it runs -----

  /** appendLenPrefixed: decimal byte length, ':', the bytes, a newline. */
  method AppendLenPrefixed(dst: Bytes, value: Bytes) returns (r: Bytes)
    ensures r == dst + Field(value)
  {
    r := dst + FormatInt(|value|);
    r := r + [COLON];
    r := r + value;
    r := r + [NEWLINE];
    assert r == dst + Field(value);
  }

  method AppendRow(dst: Bytes, first: Bytes, second: Bytes, version: int) returns (r: Bytes)
    ensures r == dst + RowFields(Row(first, second, version))
  {
    r := AppendLenPrefixed(dst, first);
    r := AppendLenPrefixed(r, second);
    r := AppendLenPrefixed(r, FormatInt(version));
    assert r == dst + RowFields(Row(first, second, version));
  }

  method AppendSectionHeader(dst: Bytes, tag: Bytes, count: nat) returns (r: Bytes)
    ensures r == dst + (Field(tag) + Field(FormatInt(count)))
  {
    r := AppendLenPrefixed(dst, tag);
    r := AppendLenPrefixed(r, FormatInt(count));
    assert r == dst + (Field(tag) + Field(FormatInt(count)));
  }

  lemma AppendAssociates(a: Bytes, b: Bytes, c: Bytes)
    ensures (a + b) + c == a + (b + c)
  {
  }

  lemma AppendNothing(s: Bytes)
    ensures [] + s == s && s + [] == s
  {
  }

  lemma {:induction false} StreamAppend<T>(items: seq<T>, item: T, encode: T -> Bytes)
    ensures Stream(items + [item], encode) == Stream(items, encode) + encode(item)
  {
    if items == [] {
      assert ([item])[1..] == [];
      AppendNothing(encode(item));
    } else {
      StreamAppend(items[1..], item, encode);
      assert (items + [item])[1..] == items[1..] + [item];
      AppendAssociates(encode(items[0]), Stream(items[1..], encode), encode(item));
    }
  }

  /** The buffer after the first i rows of a section whose header is head. */
  ghost function Written<T>(head: Bytes, items: seq<T>, i: nat, row: T -> Row): Bytes
    requires i <= |items|
  {
    head + RowsStream(Rows(items[..i], row))
  }

  lemma WrittenNone<T>(head: Bytes, items: seq<T>, row: T -> Row)
    ensures Written(head, items, 0, row) == head
  {
    assert RowsStream(Rows(items[..0], row)) == [];
  }

  lemma WrittenAll<T>(dst: Bytes, tag: Bytes, items: seq<T>, row: T -> Row)
    ensures Written(dst + (Field(tag) + Field(FormatInt(|items|))), items, |items|, row)
         == dst + Section(tag, Rows(items, row))
  {
    assert items[..|items|] == items;
    assert |Rows(items, row)| == |items|;
  }

  lemma WrittenStep<T>(head: Bytes, items: seq<T>, i: nat, row: T -> Row)
    requires i < |items|
    ensures Written(head, items, i, row) + RowFields(row(items[i])) == Written(head, items, i + 1, row)
  {
    var before := Rows(items[..i], row);
    assert Rows(items[..i + 1], row) == before + [row(items[i])];
    StreamAppend(before, row(items[i]), RowFields);
    AppendAssociates(head, RowsStream(before), RowFields(row(items[i])));
  }

  /** The rows up to i pass their check, so row i decides what happens next. */
  lemma {:induction false} FirstErrorStep<T>(items: seq<T>, i: nat, check: T -> Option<RevisionError>)
    requires i < |items| && FirstError(items[..i], check) == None
    ensures check(items[i]).Some? ==> FirstError(items, check) == check(items[i])
    ensures check(items[i]).None? ==> FirstError(items[..i + 1], check) == None
  {
    assert items == items[..i] + items[i..];
    FirstErrorSplit(items[..i], items[i..], check);
    assert items[..i + 1] == items[..i] + [items[i]];
    FirstErrorSplit(items[..i], [items[i]], check);
  }

  method AppendNodes(dst: Bytes, nodes: array<Node>) returns (r: Result<Bytes, RevisionError>)
    ensures r == if FirstError(nodes[..], NodeError).Some? then Err(FirstError(nodes[..], NodeError).value)
                 else Ok(dst + Section(TAG_NODES, Rows(nodes[..], NodeRow)))
  {
    ghost var items := nodes[..];
    var buf := AppendSectionHeader(dst, TAG_NODES, nodes.Length);
    ghost var head := buf;
    WrittenNone(head, items, NodeRow);
    var i := 0;
    while i < nodes.Length
      invariant 0 <= i <= nodes.Length == |items|
      invariant FirstError(items[..i], NodeError) == None
      invariant buf == Written(head, items, i, NodeRow)
    {
      var node := nodes[i];
      FirstErrorStep(items, i, NodeError);
      WrittenStep(head, items, i, NodeRow);
      var err := NodeError(node);
      if err.Some? {
        return Err(err.value);
      }
      buf := AppendRow(buf, node.entityType, node.entityID, node.version);
      i := i + 1;
    }
    assert items[..i] == items;
    WrittenAll(dst, TAG_NODES, items, NodeRow);
    r := Ok(buf);
  }

  method AppendCapabilities(dst: Bytes, capabilities: array<Capability>) returns (r: Result<Bytes, RevisionError>)
    ensures r == if FirstError(capabilities[..], CapabilityError).Some?
                 then Err(FirstError(capabilities[..], CapabilityError).value)
                 else Ok(dst + Section(TAG_CAPABILITIES, Rows(capabilities[..], CapabilityRow)))
  {
    ghost var items := capabilities[..];
    var buf := AppendSectionHeader(dst, TAG_CAPABILITIES, capabilities.Length);
    ghost var head := buf;
    WrittenNone(head, items, CapabilityRow);
    var i := 0;
    while i < capabilities.Length
      invariant 0 <= i <= capabilities.Length == |items|
      invariant FirstError(items[..i], CapabilityError) == None
      invariant buf == Written(head, items, i, CapabilityRow)
    {
      var c := capabilities[i];
      FirstErrorStep(items, i, CapabilityError);
      WrittenStep(head, items, i, CapabilityRow);
      if c.cuID == [] || c.capabilityID == [] || c.version <= 0 {
        return Err(InvalidCapability);
      }
      buf := AppendRow(buf, c.cuID, c.capabilityID, c.version);
      i := i + 1;
    }
    assert items[..i] == items;
    WrittenAll(dst, TAG_CAPABILITIES, items, CapabilityRow);
    r := Ok(buf);
  }

  method AppendBindings(dst: Bytes, bindings: array<Binding>) returns (r: Result<Bytes, RevisionError>)
    ensures r == if FirstError(bindings[..], BindingError).Some? then Err(FirstError(bindings[..], BindingError).value)
                 else Ok(dst + Section(TAG_BINDINGS, Rows(bindings[..], BindingRow)))
  {
    ghost var items := bindings[..];
    var buf := AppendSectionHeader(dst, TAG_BINDINGS, bindings.Length);
    ghost var head := buf;
    WrittenNone(head, items, BindingRow);
    var i := 0;
    while i < bindings.Length
      invariant 0 <= i <= bindings.Length == |items|
      invariant FirstError(items[..i], BindingError) == None
      invariant buf == Written(head, items, i, BindingRow)
    {
      var b := bindings[i];
      FirstErrorStep(items, i, BindingError);
      WrittenStep(head, items, i, BindingRow);
      if b.cuID == [] || b.metricID == [] || b.version <= 0 {
        return Err(InvalidBinding);
      }
      buf := AppendRow(buf, b.cuID, b.metricID, b.version);
      i := i + 1;
    }
    assert items[..i] == items;
    WrittenAll(dst, TAG_BINDINGS, items, BindingRow);
    r := Ok(buf);
  }

  method CloneAndSort<T(0, !new)>(items: array<T>, less: (T, T) -> bool) returns (c: array<T>)
    requires StrictTotal(less)
    ensures fresh(c) && c[..] == Sort(items[..], less)
  {
    c := new T[items.Length];
    var i := 0;
    while i < items.Length
      invariant 0 <= i <= items.Length
      invariant c[..i] == items[..i]
    {
      c[i] := items[i];
      i := i + 1;
    }
    assert c[..] == c[..c.Length] && items[..] == items[..items.Length];
    SortInPlace(c, less);
  }

  method AppendScope(s: Scope) returns (r: Bytes)
    ensures r == ScopeFields(s)
  {
    r := AppendLenPrefixed([], FORMAT_VERSION);
    r := AppendLenPrefixed(r, TAG_SCOPE);
    r := AppendLenPrefixed(r, s.tenantID);
    r := AppendLenPrefixed(r, s.scopeType);
    r := AppendLenPrefixed(r, s.scopeID);
    assert r == ScopeFields(s);
  }

  /** ResourceRevision. It has no modifies clause: the caller's slices keep their order. */
  method ResourceRevision(s: Scope, nodes: array<Node>, capabilities: array<Capability>, bindings: array<Binding>,
                          sha256Hex: Bytes -> Bytes)
    returns (r: Result<Bytes, RevisionError>)
    ensures match CanonicalBytes(s, nodes[..], capabilities[..], bindings[..])
            case Err(e) => r == Err(e)
            case Ok(buf) => r == Ok(sha256Hex(buf))
  {
    if s.tenantID == [] || s.scopeType == [] || s.scopeID == [] {
      return Err(ScopeIdentityRequired);
    }
    if s.scopeType != ENTITY_SITE && s.scopeType != ENTITY_ASSET && s.scopeType != ENTITY_CU {
      return Err(InvalidScopeType(s.scopeType));
    }
    ComparatorsAreStrictTotal();
    var ns := CloneAndSort(nodes, NodeLess);
    var cs := CloneAndSort(capabilities, CapabilityLess);
    var bs := CloneAndSort(bindings, BindingLess);

    var buf := AppendScope(s);
    var step := AppendNodes(buf, ns);
    if step.Err? {
      return step;
    }
    step := AppendCapabilities(step.value, cs);
    if step.Err? {
      return step;
    }
    step := AppendBindings(step.value, bs);
    if step.Err? {
      return step;
    }
    r := Ok(sha256Hex(step.value));
  }
}
