/** A decoder for the snapshot stream. The source has none: it is the independent
    reference the encoder is compared with. Each reader is proved to accept exactly
    what the matching writer produces, whatever bytes follow. */
module RevisionDecoder {
  import opened Wrappers
  import opened Strconv
  import opened Order
  import opened Sequences
  import opened Revision

  /** A value read from the front of a buffer, and what is left of the buffer. */
  datatype Read<+T> = Read(value: T, rest: Bytes)

  datatype Contents =
    Contents(scope: Scope, nodes: seq<Row>, capabilities: seq<Row>, bindings: seq<Row>)

  /** How many digits the buffer starts with. */
  function DigitRun(buf: Bytes): (n: nat)
    ensures n <= |buf| && AllDigits(buf[..n])
    ensures n < |buf| ==> !IsDigit(buf[n])
  {
    if buf == [] || !IsDigit(buf[0]) then 0 else 1 + DigitRun(buf[1..])
  }

  /** len bytes between a colon at n and a newline. */
  function ReadDelimited(buf: Bytes, n: nat, len: Option<int>): Option<Read<Bytes>> {
    if len.None? || len.value < 0 then None
    else
      var end := n + 1 + len.value;
      if end < |buf| && buf[n] == COLON && buf[end] == NEWLINE then Some(Read(buf[n + 1..end], buf[end + 1..]))
      else None
  }

  function ReadField(buf: Bytes): Option<Read<Bytes>> {
    var n := DigitRun(buf);
    ReadDelimited(buf, n, ParseInt(buf[..n]))
  }

  function ReadRow(buf: Bytes): Option<Read<Row>> {
    var a := ReadField(buf);
    if a.None? then None
    else
      var b := ReadField(a.value.rest);
      if b.None? then None
      else
        var v := ReadField(b.value.rest);
        if v.None? || ParseInt(v.value.value).None? then None
        else Some(Read(Row(a.value.value, b.value.value, ParseInt(v.value.value).value), v.value.rest))
  }

  function ReadMany<T>(buf: Bytes, n: nat, read: Bytes -> Option<Read<T>>): Option<Read<seq<T>>>
    decreases n
  {
    if n == 0 then Some(Read([], buf))
    else
      var first := read(buf);
      if first.None? then None
      else
        var others := ReadMany(first.value.rest, n - 1, read);
        if others.None? then None
        else Some(Read([first.value.value] + others.value.value, others.value.rest))
  }

  function ReadSection(buf: Bytes, tag: Bytes): Option<Read<seq<Row>>> {
    var t := ReadField(buf);
    if t.None? || t.value.value != tag then None
    else
      var n := ReadField(t.value.rest);
      if n.None? then None
      else
        var count := ParseInt(n.value.value);
        if count.None? || count.value < 0 then None else ReadMany(n.value.rest, count.value, ReadRow)
  }

  function ReadScope(buf: Bytes): Option<Read<Scope>> {
    var v := ReadField(buf);
    if v.None? || v.value.value != FORMAT_VERSION then None
    else
      var t := ReadField(v.value.rest);
      if t.None? || t.value.value != TAG_SCOPE then None
      else
        var tenant := ReadField(t.value.rest);
        if tenant.None? then None
        else
          var kind := ReadField(tenant.value.rest);
          if kind.None? then None
          else
            var id := ReadField(kind.value.rest);
            if id.None? then None
            else Some(Read(Scope(tenant.value.value, kind.value.value, id.value.value), id.value.rest))
  }

  function Decode(buf: Bytes): Option<Read<Contents>> {
    var s := ReadScope(buf);
    if s.None? then None
    else
      var ns := ReadSection(s.value.rest, TAG_NODES);
      if ns.None? then None
      else
        var cs := ReadSection(ns.value.rest, TAG_CAPABILITIES);
        if cs.None? then None
        else
          var bs := ReadSection(cs.value.rest, TAG_BINDINGS);
          if bs.None? then None
          else Some(Read(Contents(s.value.value, ns.value.value, cs.value.value, bs.value.value), bs.value.rest))
  }

  // ----- every reader inverts its writer, and nothing else -----

  lemma {:induction false} DigitRunStops(digits: Bytes, rest: Bytes)
    requires AllDigits(digits) && rest != [] && !IsDigit(rest[0])
    ensures DigitRun(digits + rest) == |digits|
  {
    if digits == [] {
      assert digits + rest == rest;
    } else {
      assert (digits + rest)[0] == digits[0];
      assert (digits + rest)[1..] == digits[1..] + rest;
      DigitRunStops(digits[1..], rest);
    }
  }

  lemma {:induction false} FieldThen(v: Bytes, rest: Bytes)
    ensures Field(v) + rest == Decimal(|v|) + ([COLON] + (v + ([NEWLINE] + rest)))
  {
    var d := Decimal(|v|);
    AppendAssociates(d + [COLON] + v, [NEWLINE], rest);
    AppendAssociates(d + [COLON], v, [NEWLINE] + rest);
    AppendAssociates(d, [COLON], v + ([NEWLINE] + rest));
  }

  /** The digits, the colon and what the colon is followed by, found where the reader looks. */
  lemma LengthPrefixFound(d: Bytes, after: Bytes)
    requires AllDigits(d)
    ensures var buf := d + ([COLON] + after);
            DigitRun(buf) == |d| < |buf| && buf[|d|] == COLON && buf[..|d|] == d && buf[|d| + 1..] == after
  {
    DigitRunStops(d, [COLON] + after);
  }

  lemma ReadDelimitedAt(buf: Bytes, n: nat, v: Bytes, rest: Bytes)
    requires n < |buf| && buf[n] == COLON && buf[n + 1..] == v + ([NEWLINE] + rest)
    ensures ReadDelimited(buf, n, Some(|v|)) == Some(Read(v, rest))
  {
    SliceAround(buf, n + 1, v, rest);
  }

  lemma LengthPrefixedField(d: Bytes, v: Bytes, rest: Bytes)
    requires AllDigits(d) && ParseInt(d) == Some(|v|)
    ensures ReadField(d + ([COLON] + (v + ([NEWLINE] + rest)))) == Some(Read(v, rest))
  {
    var after := v + ([NEWLINE] + rest);
    LengthPrefixFound(d, after);
    ReadDelimitedAt(d + ([COLON] + after), |d|, v, rest);
  }

  lemma ReadFieldForward(v: Bytes, rest: Bytes)
    ensures ReadField(Field(v) + rest) == Some(Read(v, rest))
  {
    FieldThen(v, rest);
    DecimalRoundTrip(|v|);
    ParseIntExact(Decimal(|v|), |v|);
    LengthPrefixedField(Decimal(|v|), v, rest);
  }

  lemma SliceAround(buf: Bytes, start: nat, v: Bytes, rest: Bytes)
    requires start <= |buf| && buf[start..] == v + ([NEWLINE] + rest)
    ensures start + |v| < |buf| && buf[start + |v|] == NEWLINE
    ensures buf[start..start + |v|] == v && buf[start + |v| + 1..] == rest
  {
    var t := buf[start..];
    assert t[|v|] == NEWLINE && t[..|v|] == v && t[|v| + 1..] == rest;
  }

  lemma ReadDelimitedFound(buf: Bytes, n: nat, len: Option<int>, v: Bytes, rest: Bytes)
    requires ReadDelimited(buf, n, len) == Some(Read(v, rest))
    ensures len == Some(|v|) && n + 1 + |v| < |buf|
    ensures buf[n] == COLON && buf[n + 1 + |v|] == NEWLINE
    ensures v == buf[n + 1..n + 1 + |v|] && rest == buf[n + 1 + |v| + 1..]
  {
  }

  lemma ReadFieldBackward(buf: Bytes, v: Bytes, rest: Bytes)
    requires ReadField(buf) == Some(Read(v, rest))
    ensures buf == Field(v) + rest
  {
    var n := DigitRun(buf);
    ReadDelimitedFound(buf, n, ParseInt(buf[..n]), v, rest);
    ParseIntExact(buf[..n], |v|);
    BufferAround(buf, n, v, rest);
    FieldThen(v, rest);
  }

  lemma BufferAround(buf: Bytes, n: nat, v: Bytes, rest: Bytes)
    requires n + 1 + |v| < |buf| && buf[n] == COLON && buf[n + 1 + |v|] == NEWLINE
    requires v == buf[n + 1..n + 1 + |v|] && rest == buf[n + 1 + |v| + 1..]
    ensures buf == buf[..n] + ([COLON] + (v + ([NEWLINE] + rest)))
  {
  }

  /** A field is delimited by its own length: any bytes may be inside, any bytes may follow. */
  lemma ReadFieldExact(buf: Bytes, v: Bytes, rest: Bytes)
    ensures ReadField(buf) == Some(Read(v, rest)) <==> buf == Field(v) + rest
  {
    ReadFieldForward(v, rest);
    if ReadField(buf) == Some(Read(v, rest)) {
      ReadFieldBackward(buf, v, rest);
    }
  }

  lemma ReadRowExact(buf: Bytes, r: Row, rest: Bytes)
    ensures ReadRow(buf) == Some(Read(r, rest)) <==> buf == RowFields(r) + rest
  {
    var version := Field(FormatInt(r.version)) + rest;
    var second := Field(r.second) + version;
    assert RowFields(r) + rest == Field(r.first) + second;
    if buf == RowFields(r) + rest {
      ReadFieldExact(buf, r.first, second);
      ReadFieldExact(second, r.second, version);
      ReadFieldExact(version, FormatInt(r.version), rest);
      ParseIntExact(FormatInt(r.version), r.version);
    }
    if ReadRow(buf) == Some(Read(r, rest)) {
      var a := ReadField(buf).value;
      var b := ReadField(a.rest).value;
      var v := ReadField(b.rest).value;
      ReadFieldExact(buf, a.value, a.rest);
      ReadFieldExact(a.rest, b.value, b.rest);
      ReadFieldExact(b.rest, v.value, v.rest);
      ParseIntExact(v.value, r.version);
    }
  }

  lemma PrefixSplits(x: Bytes, y: Bytes)
    requires x <= y
    ensures x + y[|x|..] == y
  {
  }

  /** The reader accepts exactly what the writer writes, followed by anything. */
  ghost predicate Inverts<T(!new)>(read: Bytes -> Option<Read<T>>, encode: T -> Bytes) {
    forall buf, x, rest :: read(buf) == Some(Read(x, rest)) <==> buf == encode(x) + rest
  }

  lemma {:induction false} ReadManyForward<T(!new)>(items: seq<T>, rest: Bytes, read: Bytes -> Option<Read<T>>,
                                                    encode: T -> Bytes)
    requires Inverts(read, encode)
    ensures ReadMany(Stream(items, encode) + rest, |items|, read) == Some(Read(items, rest))
  {
    if items == [] {
      AppendNothing(rest);
    } else {
      var tail := Stream(items[1..], encode) + rest;
      AppendAssociates(encode(items[0]), Stream(items[1..], encode), rest);
      assert read(encode(items[0]) + tail) == Some(Read(items[0], tail));
      ReadManyForward(items[1..], rest, read, encode);
      assert items == [items[0]] + items[1..];
    }
  }

  lemma {:induction false} ReadManyBackward<T(!new)>(buf: Bytes, n: nat, items: seq<T>, rest: Bytes,
                                                     read: Bytes -> Option<Read<T>>, encode: T -> Bytes)
    requires Inverts(read, encode)
    requires ReadMany(buf, n, read) == Some(Read(items, rest))
    ensures |items| == n && buf == Stream(items, encode) + rest
    decreases n
  {
    if n == 0 {
      AppendNothing(buf);
    } else {
      var first := read(buf).value;
      var others := ReadMany(first.rest, n - 1, read).value;
      assert items[0] == first.value && items[1..] == others.value;
      ReadManyBackward(first.rest, n - 1, items[1..], rest, read, encode);
      AppendAssociates(encode(items[0]), Stream(items[1..], encode), rest);
    }
  }

  lemma {:induction false} ReadRowsExact(buf: Bytes, n: nat, rows: seq<Row>, rest: Bytes)
    ensures ReadMany(buf, n, ReadRow) == Some(Read(rows, rest)) <==> |rows| == n && buf == RowsStream(rows) + rest
  {
    assert Inverts(ReadRow, RowFields) by {
      forall b, r, t ensures ReadRow(b) == Some(Read(r, t)) <==> b == RowFields(r) + t {
        ReadRowExact(b, r, t);
      }
    }
    ReadManyForward(rows, rest, ReadRow, RowFields);
    if ReadMany(buf, n, ReadRow) == Some(Read(rows, rest)) {
      ReadManyBackward(buf, n, rows, rest, ReadRow, RowFields);
    }
  }

  lemma SectionThen(tag: Bytes, rows: seq<Row>, rest: Bytes)
    ensures Section(tag, rows) + rest == Field(tag) + (Field(FormatInt(|rows|)) + (RowsStream(rows) + rest))
  {
    var count := Field(FormatInt(|rows|));
    AppendAssociates(Field(tag) + count, RowsStream(rows), rest);
    AppendAssociates(Field(tag), count, RowsStream(rows) + rest);
  }

  lemma ReadSectionForward(tag: Bytes, rows: seq<Row>, rest: Bytes)
    ensures ReadSection(Section(tag, rows) + rest, tag) == Some(Read(rows, rest))
  {
    var body := RowsStream(rows) + rest;
    var counted := Field(FormatInt(|rows|)) + body;
    SectionThen(tag, rows, rest);
    ReadFieldForward(tag, counted);
    ReadFieldForward(FormatInt(|rows|), body);
    ParseIntExact(FormatInt(|rows|), |rows|);
    ReadRowsExact(body, |rows|, rows, rest);
  }

  lemma ReadSectionBackward(buf: Bytes, tag: Bytes, rows: seq<Row>, rest: Bytes)
    requires ReadSection(buf, tag) == Some(Read(rows, rest))
    ensures buf == Section(tag, rows) + rest
  {
    var t := ReadField(buf).value;
    var n := ReadField(t.rest).value;
    var count := ParseInt(n.value).value;
    ReadFieldBackward(buf, t.value, t.rest);
    ReadFieldBackward(t.rest, n.value, n.rest);
    ParseIntExact(n.value, count);
    ReadRowsExact(n.rest, count, rows, rest);
    SectionThen(tag, rows, rest);
  }

  lemma ReadSectionExact(buf: Bytes, tag: Bytes, rows: seq<Row>, rest: Bytes)
    ensures ReadSection(buf, tag) == Some(Read(rows, rest)) <==> buf == Section(tag, rows) + rest
  {
    ReadSectionForward(tag, rows, rest);
    if ReadSection(buf, tag) == Some(Read(rows, rest)) {
      ReadSectionBackward(buf, tag, rows, rest);
    }
  }

  lemma ReadScopeExact(buf: Bytes, s: Scope, rest: Bytes)
    ensures ReadScope(buf) == Some(Read(s, rest)) <==> buf == ScopeFields(s) + rest
  {
    var id := Field(s.scopeID) + rest;
    var kind := Field(s.scopeType) + id;
    var tenant := Field(s.tenantID) + kind;
    var tag := Field(TAG_SCOPE) + tenant;
    assert ScopeFields(s) + rest == Field(FORMAT_VERSION) + tag;
    if buf == ScopeFields(s) + rest {
      ReadFieldExact(buf, FORMAT_VERSION, tag);
      ReadFieldExact(tag, TAG_SCOPE, tenant);
      ReadFieldExact(tenant, s.tenantID, kind);
      ReadFieldExact(kind, s.scopeType, id);
      ReadFieldExact(id, s.scopeID, rest);
    }
    if ReadScope(buf) == Some(Read(s, rest)) {
      var v := ReadField(buf).value;
      var t := ReadField(v.rest).value;
      var a := ReadField(t.rest).value;
      var k := ReadField(a.rest).value;
      var i := ReadField(k.rest).value;
      ReadFieldExact(buf, v.value, v.rest);
      ReadFieldExact(v.rest, t.value, t.rest);
      ReadFieldExact(t.rest, a.value, a.rest);
      ReadFieldExact(a.rest, k.value, k.rest);
      ReadFieldExact(k.rest, i.value, i.rest);
    }
  }

  lemma EncodeThen(c: Contents, rest: Bytes)
    ensures Encode(c.scope, c.nodes, c.capabilities, c.bindings) + rest
         == ScopeFields(c.scope) + (Section(TAG_NODES, c.nodes)
            + (Section(TAG_CAPABILITIES, c.capabilities) + (Section(TAG_BINDINGS, c.bindings) + rest)))
  {
    var s, n := ScopeFields(c.scope), Section(TAG_NODES, c.nodes);
    var k, b := Section(TAG_CAPABILITIES, c.capabilities), Section(TAG_BINDINGS, c.bindings);
    AppendAssociates(s + n + k, b, rest);
    AppendAssociates(s + n, k, b + rest);
    AppendAssociates(s, n, k + (b + rest));
  }

  lemma DecodeForward(c: Contents, rest: Bytes)
    ensures Decode(Encode(c.scope, c.nodes, c.capabilities, c.bindings) + rest) == Some(Read(c, rest))
  {
    var bs := Section(TAG_BINDINGS, c.bindings) + rest;
    var cs := Section(TAG_CAPABILITIES, c.capabilities) + bs;
    var ns := Section(TAG_NODES, c.nodes) + cs;
    EncodeThen(c, rest);
    ReadScopeExact(ScopeFields(c.scope) + ns, c.scope, ns);
    ReadSectionExact(ns, TAG_NODES, c.nodes, cs);
    ReadSectionExact(cs, TAG_CAPABILITIES, c.capabilities, bs);
    ReadSectionExact(bs, TAG_BINDINGS, c.bindings, rest);
  }

  lemma DecodeBackward(buf: Bytes)
    requires Decode(buf).Some?
    ensures var r := Decode(buf).value;
            buf == Encode(r.value.scope, r.value.nodes, r.value.capabilities, r.value.bindings) + r.rest
  {
    var s := ReadScope(buf).value;
    var n := ReadSection(s.rest, TAG_NODES).value;
    var k := ReadSection(n.rest, TAG_CAPABILITIES).value;
    var b := ReadSection(k.rest, TAG_BINDINGS).value;
    ReadScopeExact(buf, s.value, s.rest);
    ReadSectionExact(s.rest, TAG_NODES, n.value, n.rest);
    ReadSectionExact(n.rest, TAG_CAPABILITIES, k.value, k.rest);
    ReadSectionExact(k.rest, TAG_BINDINGS, b.value, b.rest);
    EncodeThen(Contents(s.value, n.value, k.value, b.value), b.rest);
  }

  /** The stream nests uniquely: a buffer has at most one reading, and it is the one written. */
  lemma DecodeExact(buf: Bytes, c: Contents, rest: Bytes)
    ensures Decode(buf) == Some(Read(c, rest)) <==>
            buf == Encode(c.scope, c.nodes, c.capabilities, c.bindings) + rest
  {
    DecodeForward(c, rest);
    if Decode(buf).Some? {
      DecodeBackward(buf);
    }
  }

  // ----- what follows for ResourceRevision -----

  /** The contents a successful call puts in the stream. */
  function Canonical(s: Scope, nodes: seq<Node>, capabilities: seq<Capability>, bindings: seq<Binding>): Contents {
    Contents(s, Rows(Sort(nodes, NodeLess), NodeRow), Rows(Sort(capabilities, CapabilityLess), CapabilityRow),
             Rows(Sort(bindings, BindingLess), BindingRow))
  }

  lemma RowsInjective<T>(xs: seq<T>, ys: seq<T>, row: T -> Row)
    requires forall x, y | x in xs && y in ys :: row(x) == row(y) ==> x == y
    ensures Rows(xs, row) == Rows(ys, row) ==> xs == ys
  {
    if Rows(xs, row) == Rows(ys, row) {
      forall i | 0 <= i < |xs| ensures xs[i] == ys[i] {
        assert Rows(xs, row)[i] == Rows(ys, row)[i];
      }
    }
  }

  /** Two calls have the same contents exactly when scopes and multisets agree. */
  lemma CanonicalExact(s1: Scope, n1: seq<Node>, c1: seq<Capability>, b1: seq<Binding>,
                       s2: Scope, n2: seq<Node>, c2: seq<Capability>, b2: seq<Binding>)
    ensures Canonical(s1, n1, c1, b1) == Canonical(s2, n2, c2, b2) <==>
            s1 == s2 && multiset(n1) == multiset(n2) && multiset(c1) == multiset(c2) && multiset(b1) == multiset(b2)
  {
    ComparatorsAreStrictTotal();
    SortCanonical(n1, n2, NodeLess);
    SortCanonical(c1, c2, CapabilityLess);
    SortCanonical(b1, b2, BindingLess);
    RowsInjective(Sort(n1, NodeLess), Sort(n2, NodeLess), NodeRow);
    RowsInjective(Sort(c1, CapabilityLess), Sort(c2, CapabilityLess), CapabilityRow);
    RowsInjective(Sort(b1, BindingLess), Sort(b2, BindingLess), BindingRow);
  }

  lemma SuccessIsEncoded(s: Scope, nodes: seq<Node>, capabilities: seq<Capability>, bindings: seq<Binding>)
    requires CanonicalBytes(s, nodes, capabilities, bindings).Ok?
    ensures var c := Canonical(s, nodes, capabilities, bindings);
            CanonicalBytes(s, nodes, capabilities, bindings).value
                == Encode(c.scope, c.nodes, c.capabilities, c.bindings)
  {
  }

  /** Round trip: whatever follows the stream, the decoder returns the scope, the three
      sorted lists, and that follow-up untouched. */
  lemma RoundTrip(s: Scope, nodes: seq<Node>, capabilities: seq<Capability>, bindings: seq<Binding>, rest: Bytes)
    requires CanonicalBytes(s, nodes, capabilities, bindings).Ok?
    ensures Decode(CanonicalBytes(s, nodes, capabilities, bindings).value + rest)
         == Some(Read(Canonical(s, nodes, capabilities, bindings), rest))
  {
    SuccessIsEncoded(s, nodes, capabilities, bindings);
    DecodeForward(Canonical(s, nodes, capabilities, bindings), rest);
  }

  /** Two streams, one a prefix of the other, have the same contents. */
  lemma EncodePrefix(c: Contents, d: Contents)
    requires Encode(c.scope, c.nodes, c.capabilities, c.bindings)
             <= Encode(d.scope, d.nodes, d.capabilities, d.bindings)
    ensures c == d
  {
    var x := Encode(c.scope, c.nodes, c.capabilities, c.bindings);
    var y := Encode(d.scope, d.nodes, d.capabilities, d.bindings);
    DecodeForward(c, y[|x|..]);
    DecodeForward(d, []);
    PrefixSplits(x, y);
    AppendNothing(y);
  }

  /** Canonical form: equal buffers exactly when the scope and the three multisets are equal. */
  lemma CanonicalForm(s1: Scope, n1: seq<Node>, c1: seq<Capability>, b1: seq<Binding>,
                      s2: Scope, n2: seq<Node>, c2: seq<Capability>, b2: seq<Binding>)
    requires CanonicalBytes(s1, n1, c1, b1).Ok? && CanonicalBytes(s2, n2, c2, b2).Ok?
    ensures CanonicalBytes(s1, n1, c1, b1) == CanonicalBytes(s2, n2, c2, b2) <==>
            s1 == s2 && multiset(n1) == multiset(n2) && multiset(c1) == multiset(c2) && multiset(b1) == multiset(b2)
  {
    SuccessIsEncoded(s1, n1, c1, b1);
    SuccessIsEncoded(s2, n2, c2, b2);
    CanonicalExact(s1, n1, c1, b1, s2, n2, c2, b2);
    if CanonicalBytes(s1, n1, c1, b1) == CanonicalBytes(s2, n2, c2, b2) {
      EncodePrefix(Canonical(s1, n1, c1, b1), Canonical(s2, n2, c2, b2));
    }
  }

  /** No snapshot is a proper prefix of another. */
  lemma PrefixFree(s1: Scope, n1: seq<Node>, c1: seq<Capability>, b1: seq<Binding>,
                   s2: Scope, n2: seq<Node>, c2: seq<Capability>, b2: seq<Binding>)
    requires CanonicalBytes(s1, n1, c1, b1).Ok? && CanonicalBytes(s2, n2, c2, b2).Ok?
    requires CanonicalBytes(s1, n1, c1, b1).value <= CanonicalBytes(s2, n2, c2, b2).value
    ensures CanonicalBytes(s1, n1, c1, b1) == CanonicalBytes(s2, n2, c2, b2)
  {
    SuccessIsEncoded(s1, n1, c1, b1);
    SuccessIsEncoded(s2, n2, c2, b2);
    EncodePrefix(Canonical(s1, n1, c1, b1), Canonical(s2, n2, c2, b2));
  }

  /** The order of the three lists changes nothing, neither the bytes nor the error. */
  lemma OrderIndependence(s: Scope, n1: seq<Node>, c1: seq<Capability>, b1: seq<Binding>,
                          n2: seq<Node>, c2: seq<Capability>, b2: seq<Binding>)
    requires multiset(n1) == multiset(n2) && multiset(c1) == multiset(c2) && multiset(b1) == multiset(b2)
    ensures CanonicalBytes(s, n1, c1, b1) == CanonicalBytes(s, n2, c2, b2)
  {
    ComparatorsAreStrictTotal();
    SortCanonical(n1, n2, NodeLess);
    SortCanonical(c1, c2, CapabilityLess);
    SortCanonical(b1, b2, BindingLess);
  }

  lemma {:induction false} SortedFirstError<T(!new)>(items: seq<T>, less: (T, T) -> bool,
                                                     check: T -> Option<RevisionError>)
    requires StrictTotal(less)
    ensures FirstError(Sort(items, less), check) == None <==> forall x | x in items :: check(x) == None
  {
    SortSorts(items, less);
    FirstErrorNone(Sort(items, less), check);
    forall x ensures x in items <==> x in Sort(items, less) {
      assert x in items <==> x in multiset(items);
      assert x in Sort(items, less) <==> x in multiset(Sort(items, less));
    }
  }

  /** A call succeeds exactly when the scope and every single row is valid. */
  lemma SucceedsExactly(s: Scope, nodes: seq<Node>, capabilities: seq<Capability>, bindings: seq<Binding>)
    ensures CanonicalBytes(s, nodes, capabilities, bindings).Ok? <==>
            && s.tenantID != [] && s.scopeID != [] && KnownEntity(s.scopeType)
            && (forall n | n in nodes :: KnownEntity(n.entityType) && n.entityID != [] && n.version > 0)
            && (forall c | c in capabilities :: c.cuID != [] && c.capabilityID != [] && c.version > 0)
            && (forall b | b in bindings :: b.cuID != [] && b.metricID != [] && b.version > 0)
  {
    ComparatorsAreStrictTotal();
    SortedFirstError(nodes, NodeLess, NodeError);
    SortedFirstError(capabilities, CapabilityLess, CapabilityError);
    SortedFirstError(bindings, BindingLess, BindingError);
  }

  lemma LeastBadRow<T(!new)>(rows: seq<T>, less: (T, T) -> bool, check: T -> Option<RevisionError>) returns (k: nat)
    requires StrictTotal(less) && Sorted(rows, less) && FirstError(rows, check).Some?
    ensures k < |rows| && check(rows[k]) == FirstError(rows, check)
    ensures forall j | 0 <= j < |rows| && less(rows[j], rows[k]) :: check(rows[j]) == None
  {
    if check(rows[0]).Some? {
      k := 0;
      forall j | 0 <= j < |rows| ensures !less(rows[j], rows[0]) {
        assert j == 0 || !less(rows[j], rows[0]);
      }
    } else {
      var i := LeastBadRow(rows[1..], less, check);
      k := i + 1;
      forall j | 0 <= j < |rows| && less(rows[j], rows[k]) ensures check(rows[j]) == None {
        assert j == 0 || rows[1..][j - 1] == rows[j];
      }
    }
  }

  /** When several nodes are bad, the error reported is that of the least of them in key
      order, wherever the caller put it. */
  lemma LeastBadNodeReported(s: Scope, nodes: seq<Node>, capabilities: seq<Capability>, bindings: seq<Binding>)
      returns (bad: Node)
    requires ScopeError(s) == None
    requires exists n :: n in nodes && NodeError(n).Some?
    ensures bad in nodes && NodeError(bad).Some?
    ensures forall n | n in nodes && NodeError(n).Some? :: !NodeLess(n, bad)
    ensures CanonicalBytes(s, nodes, capabilities, bindings) == Err(NodeError(bad).value)
  {
    ComparatorsAreStrictTotal();
    SortedFirstError(nodes, NodeLess, NodeError);
    SortSorts(nodes, NodeLess);
    var ns := Sort(nodes, NodeLess);
    var k := LeastBadRow(ns, NodeLess, NodeError);
    bad := ns[k];
    assert bad in multiset(ns);
    forall n | n in nodes && NodeError(n).Some? ensures !NodeLess(n, bad) {
      assert n in multiset(nodes);
      var j :| 0 <= j < |ns| && ns[j] == n;
    }
  }

  // ----- which error is reported -----

  ghost predicate SiteAssetOrCU(t: Bytes) {
    t == Ascii("site") || t == Ascii("asset") || t == Ascii("cu")
  }

  lemma {:induction false} SortedErrorIsOne<T(!new)>(items: seq<T>, less: (T, T) -> bool,
                                                     check: T -> Option<RevisionError>)
    requires StrictTotal(less) && exists x :: x in items && check(x).Some?
    ensures FirstError(Sort(items, less), check).Some?
    ensures exists x :: x in items && check(x) == FirstError(Sort(items, less), check)
  {
    SortedFirstError(items, less, check);
    FirstErrorIsOne(Sort(items, less), check);
    var x :| x in Sort(items, less) && check(x) == FirstError(Sort(items, less), check);
    SortSorts(items, less);
    assert x in multiset(Sort(items, less));
  }

  lemma {:induction false} FirstErrorIsOne<T>(rows: seq<T>, check: T -> Option<RevisionError>)
    requires FirstError(rows, check).Some?
    ensures exists x :: x in rows && check(x) == FirstError(rows, check)
  {
    if check(rows[0]).None? {
      FirstErrorIsOne(rows[1..], check);
      var x :| x in rows[1..] && check(x) == FirstError(rows[1..], check);
      assert x in rows;
    }
  }

  ghost predicate BadNode(n: Node) {
    !SiteAssetOrCU(n.entityType) || n.entityID == [] || n.version <= 0
  }

  ghost predicate BadCapability(c: Capability) {
    c.cuID == [] || c.capabilityID == [] || c.version <= 0
  }

  ghost predicate BadBinding(b: Binding) {
    b.cuID == [] || b.metricID == [] || b.version <= 0
  }

  /** The error is what is wrong with one of the nodes. */
  ghost predicate TellsOfNode(e: RevisionError, n: Node) {
    if !SiteAssetOrCU(n.entityType) then e == InvalidEntityType(n.entityType)
    else (n.entityID == [] || n.version <= 0) && e == InvalidNodeIdentity
  }

  lemma {:induction false} NodesChecked(nodes: seq<Node>)
    ensures var e := FirstError(Sort(nodes, NodeLess), NodeError);
            && (e.Some? <==> exists n :: n in nodes && BadNode(n))
            && (e.Some? ==> exists n :: n in nodes && TellsOfNode(e.value, n))
  {
    ComparatorsAreStrictTotal();
    SortedFirstError(nodes, NodeLess, NodeError);
    if n :| n in nodes && BadNode(n) {
      assert NodeError(n).Some?;
      SortedErrorIsOne(nodes, NodeLess, NodeError);
      var bad :| bad in nodes && NodeError(bad) == FirstError(Sort(nodes, NodeLess), NodeError);
      assert TellsOfNode(NodeError(bad).value, bad);
    }
  }

  lemma {:induction false} CapabilitiesChecked(capabilities: seq<Capability>)
    ensures var e := FirstError(Sort(capabilities, CapabilityLess), CapabilityError);
            && (e.Some? <==> exists c :: c in capabilities && BadCapability(c))
            && (e.Some? ==> e.value == InvalidCapability)
  {
    ComparatorsAreStrictTotal();
    SortedFirstError(capabilities, CapabilityLess, CapabilityError);
    if c :| c in capabilities && BadCapability(c) {
      assert CapabilityError(c).Some?;
      SortedErrorIsOne(capabilities, CapabilityLess, CapabilityError);
    }
  }

  lemma {:induction false} BindingsChecked(bindings: seq<Binding>)
    ensures var e := FirstError(Sort(bindings, BindingLess), BindingError);
            && (e.Some? <==> exists b :: b in bindings && BadBinding(b))
            && (e.Some? ==> e.value == InvalidBinding)
  {
    ComparatorsAreStrictTotal();
    SortedFirstError(bindings, BindingLess, BindingError);
    if b :| b in bindings && BadBinding(b) {
      assert BindingError(b).Some?;
      SortedErrorIsOne(bindings, BindingLess, BindingError);
    }
  }

  /** The scope is looked at first, then the nodes, the capabilities and the bindings; what is
      wrong there is what is reported. */
  lemma ErrorsInOrder(s: Scope, nodes: seq<Node>, capabilities: seq<Capability>, bindings: seq<Binding>)
    ensures var r := CanonicalBytes(s, nodes, capabilities, bindings);
            if s.tenantID == [] || s.scopeType == [] || s.scopeID == [] then r == Err(ScopeIdentityRequired)
            else if !SiteAssetOrCU(s.scopeType) then r == Err(InvalidScopeType(s.scopeType))
            else if exists n :: n in nodes && BadNode(n)
            then r.Err? && exists n :: n in nodes && TellsOfNode(r.error, n)
            else if exists c :: c in capabilities && BadCapability(c) then r == Err(InvalidCapability)
            else if exists b :: b in bindings && BadBinding(b) then r == Err(InvalidBinding)
            else r.Ok?
  {
    NodesChecked(nodes);
    CapabilitiesChecked(capabilities);
    BindingsChecked(bindings);
  }

  // ----- what the fields of a row are -----

  /** Rows in the order of their first field, then their second, then their version. */
  ghost predicate InKeyOrder(a: Row, b: Row) {
    || BytesLess(a.first, b.first)
    || (a.first == b.first && BytesLess(a.second, b.second))
    || (a.first == b.first && a.second == b.second && a.version <= b.version)
  }

  ghost predicate RowsInKeyOrder(rows: seq<Row>) {
    forall i, j | 0 <= i < j < |rows| :: InKeyOrder(rows[i], rows[j])
  }

  /** Go's string order, read off the bytes: the first byte that differs decides, or the end. */
  lemma {:induction false} BytesLessExactly(a: Bytes, b: Bytes)
    ensures BytesLess(a, b) <==>
            exists k :: 0 <= k <= |a| && k < |b| && a[..k] == b[..k] && (k == |a| || a[k] < b[k])
  {
    if a != [] && b != [] && a[0] == b[0] {
      BytesLessExactly(a[1..], b[1..]);
      if BytesLess(a, b) {
        var k :|
          0 <= k <= |a[1..]| && k < |b[1..]| && a[1..][..k] == b[1..][..k] && (k == |a[1..]| || a[1..][k] < b[1..][k]);
        assert a[..k + 1] == [a[0]] + a[1..][..k] && b[..k + 1] == [b[0]] + b[1..][..k];
      }
      if k :| 0 <= k <= |a| && k < |b| && a[..k] == b[..k] && (k == |a| || a[k] < b[k]) {
        assert k > 0;
        assert a[1..][..k - 1] == a[..k][1..] && b[1..][..k - 1] == b[..k][1..];
        assert k - 1 == |a[1..]| || a[1..][k - 1] < b[1..][k - 1];
      }
    } else if a == [] || b == [] {
      assert a == [] && b != [] ==> a[..0] == b[..0];
    } else {
      assert a[..0] == b[..0];
    }
  }

  ghost predicate NodeFields(r: Row, n: Node) {
    r.first == n.entityType && r.second == n.entityID && r.version == n.version && SiteAssetOrCU(r.first)
  }

  ghost predicate CapabilityFields(r: Row, c: Capability) {
    r.first == c.cuID && r.second == c.capabilityID && r.version == c.version
  }

  ghost predicate BindingFields(r: Row, b: Binding) {
    r.first == b.cuID && r.second == b.metricID && r.version == b.version
  }

  ghost predicate Spells<T>(rows: seq<Row>, items: seq<T>, fields: (Row, T) -> bool) {
    |rows| == |items| && forall i | 0 <= i < |rows| :: fields(rows[i], items[i])
  }

  lemma {:induction false} SortedItemIn<T(!new)>(items: seq<T>, less: (T, T) -> bool, i: nat)
    requires StrictTotal(less) && i < |Sort(items, less)|
    ensures Sort(items, less)[i] in items
  {
    SortSorts(items, less);
    assert Sort(items, less)[i] in multiset(Sort(items, less));
    assert Sort(items, less)[i] in multiset(items);
  }

  lemma {:induction false} NodeRowsSpell(nodes: seq<Node>)
    requires forall n | n in nodes :: KnownEntity(n.entityType)
    ensures var rows := Rows(Sort(nodes, NodeLess), NodeRow);
            Spells(rows, Sort(nodes, NodeLess), NodeFields) && RowsInKeyOrder(rows)
  {
    ComparatorsAreStrictTotal();
    SortSorts(nodes, NodeLess);
    var ns := Sort(nodes, NodeLess);
    forall i | 0 <= i < |ns| ensures KnownEntity(ns[i].entityType) {
      SortedItemIn(nodes, NodeLess, i);
    }
    forall i, j | 0 <= i < j < |ns| ensures InKeyOrder(NodeRow(ns[i]), NodeRow(ns[j])) {
      BytesLessTotal(ns[i].entityType, ns[j].entityType);
      BytesLessTotal(ns[i].entityID, ns[j].entityID);
    }
  }

  lemma {:induction false} CapabilityRowsSpell(capabilities: seq<Capability>)
    ensures var rows := Rows(Sort(capabilities, CapabilityLess), CapabilityRow);
            Spells(rows, Sort(capabilities, CapabilityLess), CapabilityFields) && RowsInKeyOrder(rows)
  {
    ComparatorsAreStrictTotal();
    SortSorts(capabilities, CapabilityLess);
    var cs := Sort(capabilities, CapabilityLess);
    forall i, j | 0 <= i < j < |cs| ensures InKeyOrder(CapabilityRow(cs[i]), CapabilityRow(cs[j])) {
      BytesLessTotal(cs[i].cuID, cs[j].cuID);
      BytesLessTotal(cs[i].capabilityID, cs[j].capabilityID);
    }
  }

  lemma {:induction false} BindingRowsSpell(bindings: seq<Binding>)
    ensures var rows := Rows(Sort(bindings, BindingLess), BindingRow);
            Spells(rows, Sort(bindings, BindingLess), BindingFields) && RowsInKeyOrder(rows)
  {
    ComparatorsAreStrictTotal();
    SortSorts(bindings, BindingLess);
    var bs := Sort(bindings, BindingLess);
    forall i, j | 0 <= i < j < |bs| ensures InKeyOrder(BindingRow(bs[i]), BindingRow(bs[j])) {
      BytesLessTotal(bs[i].cuID, bs[j].cuID);
      BytesLessTotal(bs[i].metricID, bs[j].metricID);
    }
  }

  /** Every successful snapshot, read back, has the caller's scope and, row by row, the fields of
      the sorted nodes, capabilities and bindings: entity type before entity id, CU before
      capability or metric, the version last, in key order; and every entity type is known. */
  lemma {:induction false} SnapshotSpellsFields(s: Scope, nodes: seq<Node>, capabilities: seq<Capability>,
                                                bindings: seq<Binding>)
    requires CanonicalBytes(s, nodes, capabilities, bindings).Ok?
    ensures var read := Decode(CanonicalBytes(s, nodes, capabilities, bindings).value);
            && read.Some? && read.value.rest == [] && read.value.value.scope == s
            && Spells(read.value.value.nodes, Sort(nodes, NodeLess), NodeFields)
            && Spells(read.value.value.capabilities, Sort(capabilities, CapabilityLess), CapabilityFields)
            && Spells(read.value.value.bindings, Sort(bindings, BindingLess), BindingFields)
            && RowsInKeyOrder(read.value.value.nodes) && RowsInKeyOrder(read.value.value.capabilities)
            && RowsInKeyOrder(read.value.value.bindings)
  {
    RoundTrip(s, nodes, capabilities, bindings, []);
    AppendNothing(CanonicalBytes(s, nodes, capabilities, bindings).value);
    SucceedsExactly(s, nodes, capabilities, bindings);
    NodeRowsSpell(nodes);
    CapabilityRowsSpell(capabilities);
    BindingRowsSpell(bindings);
  }

  // ----- one snapshot, byte by byte -----

  predicate IsAscii(s: string) {
    forall i | 0 <= i < |s| :: s[i] < '\U{80}'
  }

  /** A line of the stream: a length in digits, ':', that much text and a newline. */
  function Line(length: string, text: string): Bytes
    requires IsAscii(length) && IsAscii(text)
  {
    Ascii(length) + [58] + Ascii(text) + [10]
  }

  lemma FieldLine(length: string, text: string)
    requires IsAscii(text) && |text| < 10 && length == [(48 + |text|) as char]
    ensures IsAscii(length) && Field(Ascii(text)) == Line(length, text)
  {
    assert Decimal(|text|) == [Digit(|text|)];
  }

  lemma NumberLine(n: nat, text: string)
    requires n < 10 && text == [(48 + n) as char]
    ensures IsAscii(text) && IsAscii("1") && Field(FormatInt(n)) == Line("1", text)
  {
    assert FormatInt(n) == [Digit(n)] == Ascii(text);
    FieldLine("1", text);
  }

  lemma CapabilitiesLine()
    ensures Field(TAG_CAPABILITIES) == Line("12", "capabilities")
  {
    assert Decimal(1) == [Digit(1)] && Decimal(12) == [Digit(1), Digit(2)];
  }

  const SITE := Ascii("site")

  lemma OneRowStream(r: Row)
    ensures RowsStream([r]) == Field(r.first) + Field(r.second) + Field(FormatInt(r.version))
  {
    var rest: seq<Row> := [];
    assert [r][1..] == rest;
    assert RowsStream([r]) == RowFields(r) + Stream(rest, RowFields);
    AppendNothing(RowFields(r));
  }

  lemma SortOne<T>(x: T, less: (T, T) -> bool)
    ensures Sort([x], less) == [x]
  {
    assert [x][1..] == [];
  }

  lemma ExampleScope()
    ensures ScopeFields(Scope(Ascii("t1"), SITE, Ascii("s1")))
         == Line("1", "1") + Line("5", "scope") + Line("2", "t1") + Line("4", "site") + Line("2", "s1")
  {
    FieldLine("1", "1");
    FieldLine("5", "scope");
    FieldLine("2", "t1");
    FieldLine("4", "site");
    FieldLine("2", "s1");
  }

  lemma ExampleNodes()
    ensures Section(TAG_NODES, Rows([Node(SITE, Ascii("s1"), 1)], NodeRow))
         == Line("5", "nodes") + Line("1", "1") + (Line("4", "site") + Line("2", "s1") + Line("1", "1"))
  {
    FieldLine("5", "nodes");
    NumberLine(1, "1");
    FieldLine("4", "site");
    FieldLine("2", "s1");
    var row := NodeRow(Node(SITE, Ascii("s1"), 1));
    assert Rows([Node(SITE, Ascii("s1"), 1)], NodeRow) == [row];
    OneRowStream(row);
  }

  lemma ExampleCapabilities()
    ensures Section(TAG_CAPABILITIES, Rows([Capability(Ascii("cu1"), Ascii("c1"), 2)], CapabilityRow))
         == Line("12", "capabilities") + Line("1", "1") + (Line("3", "cu1") + Line("2", "c1") + Line("1", "2"))
  {
    CapabilitiesLine();
    NumberLine(1, "1");
    FieldLine("3", "cu1");
    FieldLine("2", "c1");
    NumberLine(2, "2");
    var row := CapabilityRow(Capability(Ascii("cu1"), Ascii("c1"), 2));
    assert Rows([Capability(Ascii("cu1"), Ascii("c1"), 2)], CapabilityRow) == [row];
    OneRowStream(row);
  }

  lemma ExampleBindings()
    ensures Section(TAG_BINDINGS, Rows([Binding(Ascii("cu1"), Ascii("m1"), 3)], BindingRow))
         == Line("8", "bindings") + Line("1", "1") + (Line("3", "cu1") + Line("2", "m1") + Line("1", "3"))
  {
    FieldLine("8", "bindings");
    NumberLine(1, "1");
    FieldLine("3", "cu1");
    FieldLine("2", "m1");
    NumberLine(3, "3");
    var row := BindingRow(Binding(Ascii("cu1"), Ascii("m1"), 3));
    assert Rows([Binding(Ascii("cu1"), Ascii("m1"), 3)], BindingRow) == [row];
    OneRowStream(row);
  }

  /** A small scope, written out: version and tags, field order and counts. */
  lemma ExampleBytes()
    ensures CanonicalBytes(Scope(Ascii("t1"), SITE, Ascii("s1")), [Node(SITE, Ascii("s1"), 1)],
                           [Capability(Ascii("cu1"), Ascii("c1"), 2)], [Binding(Ascii("cu1"), Ascii("m1"), 3)])
         == Ok((Line("1", "1") + Line("5", "scope") + Line("2", "t1") + Line("4", "site") + Line("2", "s1"))
               + (Line("5", "nodes") + Line("1", "1") + (Line("4", "site") + Line("2", "s1") + Line("1", "1")))
               + (Line("12", "capabilities") + Line("1", "1") + (Line("3", "cu1") + Line("2", "c1") + Line("1", "2")))
               + (Line("8", "bindings") + Line("1", "1") + (Line("3", "cu1") + Line("2", "m1") + Line("1", "3"))))
  {
    var s, n := Scope(Ascii("t1"), SITE, Ascii("s1")), Node(SITE, Ascii("s1"), 1);
    var c, b := Capability(Ascii("cu1"), Ascii("c1"), 2), Binding(Ascii("cu1"), Ascii("m1"), 3);
    SucceedsExactly(s, [n], [c], [b]);
    SuccessIsEncoded(s, [n], [c], [b]);
    SortOne(n, NodeLess);
    SortOne(c, CapabilityLess);
    SortOne(b, BindingLess);
    ExampleScope();
    ExampleNodes();
    ExampleCapabilities();
    ExampleBindings();
  }

  // ----- why the version is a sort key -----

  /** The order by the two identity fields alone. */
  predicate IdentityLess(a: Node, b: Node) {
    if a.entityType != b.entityType then BytesLess(a.entityType, b.entityType) else BytesLess(a.entityID, b.entityID)
  }

  predicate Tied<T>(less: (T, T) -> bool, x: T, y: T) {
    !less(x, y) && !less(y, x)
  }

  function Ties<T>(less: (T, T) -> bool, x: T): T -> bool {
    (y: T) => Tied(less, x, y)
  }

  /** What a stable sort returns: sorted, and rows that tie are the same ones in the same order. */
  ghost predicate StableArrangement<T(!new)>(s: seq<T>, r: seq<T>, less: (T, T) -> bool) {
    Sorted(r, less) && forall x :: Filter(s, Ties(less, x)) == Filter(r, Ties(less, x))
  }

  lemma {:induction false} FilterAll<T>(s: seq<T>, keep: T -> bool)
    requires forall x | x in s :: keep(x)
    ensures Filter(s, keep) == s
  {
    if s != [] {
      FilterAll(s[1..], keep);
      assert s == [s[0]] + s[1..];
    }
  }

  lemma TiedExactly(x: Node, y: Node)
    ensures Tied(IdentityLess, x, y) <==> x.entityType == y.entityType && x.entityID == y.entityID
  {
    BytesLessTotal(x.entityType, y.entityType);
    BytesLessTotal(x.entityID, y.entityID);
    BytesLessTotal(y.entityID, y.entityID);
  }

  ghost predicate TyingIsEquivalence<T(!new)>(less: (T, T) -> bool) {
    && (forall x :: Tied(less, x, x))
    && (forall x, y, z :: Tied(less, x, y) && Tied(less, y, z) ==> Tied(less, x, z))
  }

  lemma IdentityTies()
    ensures TyingIsEquivalence(IdentityLess)
  {
    forall x: Node ensures Tied(IdentityLess, x, x) {
      TiedExactly(x, x);
    }
    forall x: Node, y: Node, z: Node | Tied(IdentityLess, x, y) && Tied(IdentityLess, y, z)
      ensures Tied(IdentityLess, x, z)
    {
      TiedExactly(x, y);
      TiedExactly(y, z);
      TiedExactly(x, z);
    }
  }

  /** Rows that all tie stay where they are under a stable sort. */
  lemma TiedStay<T(!new)>(s: seq<T>, r: seq<T>, a: T, less: (T, T) -> bool)
    requires TyingIsEquivalence(less) && forall x | x in s :: Tied(less, a, x)
    requires StableArrangement(s, r, less)
    ensures r == s
  {
    forall x | x in r ensures Tied(less, a, x) {
      FilterContains(r, Ties(less, x), x);
      var y := Filter(s, Ties(less, x))[0];
      FilterContains(s, Ties(less, x), y);
      assert Tied(less, a, y) && Tied(less, y, x);
    }
    FilterAll(s, Ties(less, a));
    FilterAll(r, Ties(less, a));
  }

  lemma TwoTiedStay<T(!new)>(a: T, b: T, r: seq<T>, less: (T, T) -> bool)
    requires TyingIsEquivalence(less) && Tied(less, a, b)
    ensures StableArrangement([a, b], r, less) <==> r == [a, b]
  {
    if StableArrangement([a, b], r, less) {
      TiedStay([a, b], r, a, less);
    }
    assert !less(b, a);
  }

  lemma VersionsDiffer(s: Scope, a: Node, b: Node)
    requires a.version != b.version
    ensures Encode(s, Rows([a, b], NodeRow), [], []) != Encode(s, Rows([b, a], NodeRow), [], [])
  {
    var c, d := Contents(s, Rows([a, b], NodeRow), [], []), Contents(s, Rows([b, a], NodeRow), [], []);
    assert c.nodes[0] == NodeRow(a) && d.nodes[0] == NodeRow(b);
    if Encode(c.scope, c.nodes, c.capabilities, c.bindings) == Encode(d.scope, d.nodes, d.capabilities, d.bindings) {
      EncodePrefix(c, d);
    }
  }

  /** Sorted by identity alone, two versions of one node would keep the order the caller gave
      them, and the two orders have different bytes. */
  lemma VersionKeyNeeded(s: Scope, a: Node, b: Node, r: seq<Node>)
    requires a.entityType == b.entityType && a.entityID == b.entityID && a.version != b.version
    ensures StableArrangement([a, b], r, IdentityLess) <==> r == [a, b]
    ensures Encode(s, Rows([a, b], NodeRow), [], []) != Encode(s, Rows([b, a], NodeRow), [], [])
  {
    TiedExactly(a, b);
    IdentityTies();
    TwoTiedStay(a, b, r, IdentityLess);
    VersionsDiffer(s, a, b);
  }
}
