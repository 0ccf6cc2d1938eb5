/** Canonical JSON text as the equality test of the light-settings editor: objects are printed with
    their entries sorted by key, and two values are taken for equal when their texts are. */
module CanonicalJson {
  import opened Common

  /** A JavaScript value as JSON.stringify sees it. A finite number is its printed token. */
  datatype Value =
    | Undefined
    | Null
    | Bool(b: bool)
    | Number(token: string)
    | Str(s: string)
    | Arr(elements: seq<Value>)
    | Obj(fields: seq<Field>)

  datatype Field = Field(key: string, value: Value)

  /** What a value means: objects are finite maps, so the order of insertion is gone. */
  datatype Meaning =
    | MUndefined
    | MNull
    | MBool(b: bool)
    | MNumber(token: string)
    | MStr(s: string)
    | MArr(elements: seq<Meaning>)
    | MObj(fields: map<string, Meaning>)

  // ----- Well-formed values

  predicate IsTokenChar(c: char) {
    'a' <= c <= 'z' || '0' <= c <= '9' || c == '+' || c == '-' || c == '.'
  }

  predicate IsToken(s: string) {
    s != "" && forall i :: 0 <= i < |s| ==> IsTokenChar(s[i])
  }

  predicate IsNumberToken(s: string) {
    IsToken(s) && ('0' <= s[0] <= '9' || s[0] == '-')
  }

  function Keys(fields: seq<Field>): set<string> {
    if fields == [] then {} else {fields[0].key} + Keys(fields[1..])
  }

  /** Numbers are number tokens and the keys of an object are distinct. */
  predicate Wf(v: Value)
    decreases v, 1
  {
    match v
    case Number(token) => IsNumberToken(token)
    case Arr(elements) => WfElements(elements)
    case Obj(fields) => WfFields(fields)
    case _ => true
  }

  predicate WfElements(elements: seq<Value>)
    decreases elements, 0
  {
    elements == [] || (Wf(elements[0]) && WfElements(elements[1..]))
  }

  predicate WfFields(fields: seq<Field>)
    decreases fields, 0
  {
    fields == [] ||
    (Wf(fields[0].value) && fields[0].key !in Keys(fields[1..]) && WfFields(fields[1..]))
  }

  // ----- Meaning

  function Denote(v: Value): Meaning
    decreases v, 1
  {
    match v
    case Undefined => MUndefined
    case Null => MNull
    case Bool(b) => MBool(b)
    case Number(token) => MNumber(token)
    case Str(s) => MStr(s)
    case Arr(elements) => MArr(DenoteElements(elements))
    case Obj(fields) => MObj(DenoteFields(fields))
  }

  function DenoteElements(elements: seq<Value>): (r: seq<Meaning>)
    ensures |r| == |elements|
    decreases elements, 0
  {
    if elements == [] then [] else [Denote(elements[0])] + DenoteElements(elements[1..])
  }

  function DenoteFields(fields: seq<Field>): map<string, Meaning>
    decreases fields, 0
  {
    if fields == [] then map[]
    else DenoteFields(fields[1..])[fields[0].key := Denote(fields[0].value)]
  }

  // ----- Quoting

  function Hex(n: nat): char
    requires n < 16
  {
    if n < 10 then ('0' as int + n) as char else ('a' as int + n - 10) as char
  }

  function EscapeChar(c: char): string {
    if c == '"' then "\\\""
    else if c == '\\' then "\\\\"
    else if c as int == 8 then "\\b"
    else if c as int == 12 then "\\f"
    else if c == '\n' then "\\n"
    else if c == '\r' then "\\r"
    else if c == '\t' then "\\t"
    else if c as int < 32 then ['\\', 'u', '0', '0', Hex(c as int / 16), Hex(c as int % 16)]
    else [c]
  }

  function Escaped(s: string): string {
    if s == "" then "" else EscapeChar(s[0]) + Escaped(s[1..])
  }

  /** JSON.stringify of a string. */
  function Quote(s: string): string {
    "\"" + Escaped(s) + "\""
  }

  lemma HexInjective(m: nat, n: nat)
    requires m < 16 && n < 16 && Hex(m) == Hex(n)
    ensures m == n
  {
  }

  lemma EscapeCharPrefix(c: char, d: char, x: string, y: string)
    requires EscapeChar(c) + x == EscapeChar(d) + y
    ensures c == d && x == y
  {
    var t, u := EscapeChar(c) + x, EscapeChar(d) + y;
    assert t[0] == u[0];
    if c as int >= 32 && c != '"' && c != '\\' {
      assert t[0] == c;
    } else {
      assert t[1] == u[1];
      if t[1] == 'u' {
        assert t[4] == u[4] && t[5] == u[5];
        HexInjective(c as int / 16, d as int / 16);
        HexInjective(c as int % 16, d as int % 16);
      }
    }
    assert c == d;
    assert x == t[|EscapeChar(c)|..] && y == u[|EscapeChar(d)|..];
  }

  lemma EscapedStart(s: string, x: string)
    ensures (Escaped(s) + "\"" + x)[0] == '"' <==> s == ""
  {
  }

  lemma EscapedCons(s: string, x: string)
    requires s != ""
    ensures Escaped(s) + "\"" + x == EscapeChar(s[0]) + (Escaped(s[1..]) + "\"" + x)
  {
  }

  lemma {:induction false} EscapedPrefix(s: string, t: string, x: string, y: string)
    requires Escaped(s) + "\"" + x == Escaped(t) + "\"" + y
    ensures s == t && x == y
  {
    EscapedStart(s, x);
    EscapedStart(t, y);
    if s == "" {
      assert Escaped(s) + "\"" + x == "\"" + x && Escaped(t) + "\"" + y == "\"" + y;
      Tail("\"", x, "\"", y);
    } else {
      EscapedCons(s, x);
      EscapedCons(t, y);
      EscapeCharPrefix(s[0], t[0], Escaped(s[1..]) + "\"" + x, Escaped(t[1..]) + "\"" + y);
      EscapedPrefix(s[1..], t[1..], x, y);
      assert s == [s[0]] + s[1..] && t == [t[0]] + t[1..];
    }
  }

  /** A quoted string ends where it says: it is never a proper prefix of another one. */
  lemma QuotePrefix(s: string, t: string, x: string, y: string)
    requires Quote(s) + x == Quote(t) + y
    ensures s == t && x == y
  {
    Bracketed("\"", Escaped(s), "\"", x);
    Bracketed("\"", Escaped(t), "\"", y);
    Tail("\"", Escaped(s) + "\"" + x, "\"", Escaped(t) + "\"" + y);
    EscapedPrefix(s, t, x, y);
  }

  lemma Bracketed(open: string, body: string, close: string, x: string)
    ensures open + body + close + x == open + (body + close + x)
    ensures open + (body + close) + x == open + (body + (close + x))
  {
  }

  lemma Tail(a: string, x: string, b: string, y: string)
    requires |a| == 1 && |b| == 1 && a + x == b + y
    ensures a == b && x == y
  {
    assert x == (a + x)[1..] && y == (b + y)[1..];
    assert a[0] == (a + x)[0] && b[0] == (b + y)[0];
  }

  // ----- Sorting entries

  /** The comparator `left.localeCompare(right) <= 0`. */
  type Order = (string, string) -> bool

  ghost predicate Preorder(leq: Order) {
    (forall a, b :: leq(a, b) || leq(b, a)) && forall a, b, c :: leq(a, b) && leq(b, c) ==> leq(a, c)
  }

  /** Only equal keys among the given ones compare as equal. */
  ghost predicate Apart(keys: set<string>, leq: Order) {
    forall a, b :: a in keys && b in keys && leq(a, b) && leq(b, a) ==> a == b
  }

  /** No object inside the value holds two distinct keys that the comparator ties. */
  ghost predicate NoTies(v: Value, leq: Order) {
    match v
    case Arr(elements) => forall i :: 0 <= i < |elements| ==> NoTies(elements[i], leq)
    case Obj(fields) =>
      Apart(Keys(fields), leq) && forall i :: 0 <= i < |fields| ==> NoTies(fields[i].value, leq)
    case _ => true
  }

  function Size(v: Value): nat
    decreases v, 1
  {
    match v
    case Arr(elements) => 1 + SizeElements(elements)
    case Obj(fields) => 1 + SizeFields(fields)
    case _ => 1
  }

  function SizeElements(elements: seq<Value>): nat
    decreases elements, 0
  {
    if elements == [] then 0 else 1 + Size(elements[0]) + SizeElements(elements[1..])
  }

  function SizeFields(fields: seq<Field>): nat
    decreases fields, 0
  {
    if fields == [] then 0 else 1 + Size(fields[0].value) + SizeFields(fields[1..])
  }

  /** Entries are compared by their keys. */
  function ByName(leq: Order): (Field, Field) -> bool {
    (f: Field, g: Field) => leq(f.key, g.key)
  }

  lemma {:induction false} InsertSize(f: Field, fields: seq<Field>, leq: Order)
    ensures SizeFields(Insert(f, fields, ByName(leq))) == 1 + Size(f.value) + SizeFields(fields)
  {
    if fields == [] || leq(f.key, fields[0].key) {
      assert ([f] + fields)[1..] == fields;
    } else {
      var tail := Insert(f, fields[1..], ByName(leq));
      InsertSize(f, fields[1..], leq);
      assert ([fields[0]] + tail)[1..] == tail;
    }
  }

  lemma {:induction false} SortSize(fields: seq<Field>, leq: Order)
    ensures SizeFields(Sort(fields, ByName(leq))) == SizeFields(fields)
  {
    if fields == [] {
    } else {
      SortSize(fields[1..], leq);
      InsertSize(fields[0], Sort(fields[1..], ByName(leq)), leq);
    }
  }

  /** Stable sort of an object's entries by key. */
  function SortFields(fields: seq<Field>, leq: Order): (r: seq<Field>)
    ensures SizeFields(r) == SizeFields(fields)
  {
    SortSize(fields, leq);
    Sort(fields, ByName(leq))
  }

  // ----- Canonical text

  function Token(v: Value): string
    requires v.Undefined? || v.Null? || v.Bool? || v.Number?
  {
    match v
    case Undefined => "undefined"
    case Null => "null"
    case Bool(b) => if b then "true" else "false"
    case Number(token) => token
  }

  function Canonical(v: Value, leq: Order): string
    decreases Size(v)
  {
    match v
    case Str(s) => Quote(s)
    case Arr(elements) => "[" + (CanonicalElements(elements, leq) + "]")
    case Obj(fields) => "{" + (CanonicalFields(SortFields(fields, leq), leq) + "}")
    case _ => Token(v)
  }

  function CanonicalElements(elements: seq<Value>, leq: Order): string
    decreases SizeElements(elements)
  {
    if elements == [] then ""
    else Canonical(elements[0], leq) + MoreElements(elements[1..], leq)
  }

  /** Remaining elements, each after its comma. */
  function MoreElements(elements: seq<Value>, leq: Order): string
    decreases SizeElements(elements)
  {
    if elements == [] then ""
    else "," + (Canonical(elements[0], leq) + MoreElements(elements[1..], leq))
  }

  function CanonicalFields(fields: seq<Field>, leq: Order): string
    decreases SizeFields(fields), 1
  {
    if fields == [] then ""
    else CanonicalField(fields[0], leq) + MoreFields(fields[1..], leq)
  }

  function MoreFields(fields: seq<Field>, leq: Order): string
    decreases SizeFields(fields), 1
  {
    if fields == [] then ""
    else "," + (CanonicalField(fields[0], leq) + MoreFields(fields[1..], leq))
  }

  function CanonicalField(f: Field, leq: Order): string
    decreases Size(f.value) + 1, 0
  {
    Quote(f.key) + (":" + Canonical(f.value, leq))
  }

  /** The editor's equality of JSON values. */
  predicate JsonEqual(v: Value, w: Value, leq: Order) {
    Canonical(v, leq) == Canonical(w, leq)
  }

  // ----- Sorting keeps the meaning

  lemma {:induction false} DenoteFieldsKeys(fields: seq<Field>)
    ensures DenoteFields(fields).Keys == Keys(fields)
  {
    if fields == [] {
    } else {
      DenoteFieldsKeys(fields[1..]);
    }
  }

  lemma Cons(f: Field, fields: seq<Field>)
    ensures WfFields([f] + fields) <==> Wf(f.value) && f.key !in Keys(fields) && WfFields(fields)
    ensures DenoteFields([f] + fields) == DenoteFields(fields)[f.key := Denote(f.value)]
    ensures Keys([f] + fields) == {f.key} + Keys(fields)
  {
    assert ([f] + fields)[1..] == fields;
  }

  lemma {:induction false} InsertKeys(f: Field, fields: seq<Field>, leq: Order)
    ensures Keys(Insert(f, fields, ByName(leq))) == {f.key} + Keys(fields)
    ensures WfFields(fields) && Wf(f.value) && f.key !in Keys(fields) ==> WfFields(Insert(f, fields, ByName(leq)))
  {
    Cons(f, fields);
    if fields == [] || leq(f.key, fields[0].key) {
    } else {
      InsertKeys(f, fields[1..], leq);
      Cons(fields[0], Insert(f, fields[1..], ByName(leq)));
    }
  }

  lemma {:induction false} InsertDenotes(f: Field, fields: seq<Field>, leq: Order)
    requires WfFields(fields) && f.key !in Keys(fields)
    ensures DenoteFields(Insert(f, fields, ByName(leq))) == DenoteFields(fields)[f.key := Denote(f.value)]
  {
    Cons(f, fields);
    if fields == [] || leq(f.key, fields[0].key) {
    } else {
      InsertDenotes(f, fields[1..], leq);
      Cons(fields[0], Insert(f, fields[1..], ByName(leq)));
    }
  }

  lemma {:induction false} InsertKeeps(f: Field, fields: seq<Field>, leq: Order)
    requires WfFields(fields) && Wf(f.value) && f.key !in Keys(fields)
    ensures WfFields(Insert(f, fields, ByName(leq))) && Keys(Insert(f, fields, ByName(leq))) == {f.key} + Keys(fields)
    ensures DenoteFields(Insert(f, fields, ByName(leq))) == DenoteFields(fields)[f.key := Denote(f.value)]
  {
    InsertKeys(f, fields, leq);
    InsertDenotes(f, fields, leq);
  }

  /** Sorting the entries of an object changes neither its meaning nor its keys. */
  lemma {:induction false} SortKeeps(fields: seq<Field>, leq: Order)
    requires WfFields(fields)
    ensures WfFields(SortFields(fields, leq))
    ensures DenoteFields(SortFields(fields, leq)) == DenoteFields(fields)
    ensures Keys(SortFields(fields, leq)) == Keys(fields)
  {
    if fields == [] {
    } else {
      SortKeeps(fields[1..], leq);
      InsertKeeps(fields[0], SortFields(fields[1..], leq), leq);
    }
  }

  ghost predicate Below(key: string, fields: seq<Field>, leq: Order) {
    forall k :: k in Keys(fields) ==> leq(key, k)
  }

  /** Every key is at most all later ones. */
  ghost predicate Sorted(fields: seq<Field>, leq: Order) {
    fields == [] || (Below(fields[0].key, fields[1..], leq) && Sorted(fields[1..], leq))
  }

  lemma {:induction false} InsertSorts(f: Field, fields: seq<Field>, leq: Order)
    requires Preorder(leq) && Sorted(fields, leq) && WfFields(fields) && Wf(f.value) && f.key !in Keys(fields)
    ensures Sorted(Insert(f, fields, ByName(leq)), leq)
  {
    if fields == [] || leq(f.key, fields[0].key) {
      assert ([f] + fields)[1..] == fields;
    } else {
      var head, tail := fields[0], Insert(f, fields[1..], ByName(leq));
      InsertSorts(f, fields[1..], leq);
      InsertKeeps(f, fields[1..], leq);
      assert ([head] + tail)[1..] == tail;
    }
  }

  lemma {:induction false} SortSorts(fields: seq<Field>, leq: Order)
    requires Preorder(leq) && WfFields(fields)
    ensures Sorted(SortFields(fields, leq), leq)
  {
    if fields == [] {
    } else {
      SortSorts(fields[1..], leq);
      SortKeeps(fields[1..], leq);
      InsertSorts(fields[0], SortFields(fields[1..], leq), leq);
    }
  }

  // ----- Equal meanings have equal texts

  ghost predicate NoneTies(fields: seq<Field>, leq: Order) {
    forall i :: 0 <= i < |fields| ==> NoTies(fields[i].value, leq)
  }

  lemma {:induction false} InsertNoTies(f: Field, fields: seq<Field>, leq: Order)
    requires NoTies(f.value, leq) && NoneTies(fields, leq)
    ensures NoneTies(Insert(f, fields, ByName(leq)), leq)
  {
    if fields == [] || leq(f.key, fields[0].key) {
    } else {
      InsertNoTies(f, fields[1..], leq);
    }
  }

  lemma {:induction false} SortNoTies(fields: seq<Field>, leq: Order)
    requires NoneTies(fields, leq)
    ensures NoneTies(SortFields(fields, leq), leq)
  {
    if fields == [] {
    } else {
      SortNoTies(fields[1..], leq);
      InsertNoTies(fields[0], SortFields(fields[1..], leq), leq);
    }
  }

  lemma {:induction false} SameMeaningSameText(v: Value, w: Value, leq: Order)
    requires Preorder(leq) && NoTies(v, leq) && Wf(v) && Wf(w) && Denote(v) == Denote(w)
    ensures Canonical(v, leq) == Canonical(w, leq)
    decreases Size(v)
  {
    match v
    case Arr(elements) =>
      SameElements(elements, w.elements, leq);
    case Obj(fields) =>
      SortKeeps(fields, leq);
      SortKeeps(w.fields, leq);
      SortSorts(fields, leq);
      SortSorts(w.fields, leq);
      SortNoTies(fields, leq);
      SameFields(SortFields(fields, leq), SortFields(w.fields, leq), leq);
    case _ =>
  }

  lemma {:induction false} SameElements(a: seq<Value>, b: seq<Value>, leq: Order)
    requires Preorder(leq) && WfElements(a) && WfElements(b)
    requires forall i :: 0 <= i < |a| ==> NoTies(a[i], leq)
    requires DenoteElements(a) == DenoteElements(b)
    ensures CanonicalElements(a, leq) == CanonicalElements(b, leq) && MoreElements(a, leq) == MoreElements(b, leq)
    decreases SizeElements(a)
  {
    assert |a| == |b|;
    if a == [] {
    } else {
      assert Denote(a[0]) == DenoteElements(a)[0] == DenoteElements(b)[0] == Denote(b[0]);
      assert DenoteElements(a[1..]) == DenoteElements(a)[1..] == DenoteElements(b)[1..] == DenoteElements(b[1..]);
      SameMeaningSameText(a[0], b[0], leq);
      SameElements(a[1..], b[1..], leq);
    }
  }

  /** Sorted entry lists with the same map and no ties agree entry by entry. */
  lemma {:induction false} SameFields(a: seq<Field>, b: seq<Field>, leq: Order)
    requires Preorder(leq) && WfFields(a) && WfFields(b) && Sorted(a, leq) && Sorted(b, leq)
    requires Apart(Keys(a), leq) && NoneTies(a, leq)
    requires DenoteFields(a) == DenoteFields(b)
    ensures CanonicalFields(a, leq) == CanonicalFields(b, leq) && MoreFields(a, leq) == MoreFields(b, leq)
    decreases SizeFields(a)
  {
    DenoteFieldsKeys(a);
    DenoteFieldsKeys(b);
    if a == [] {
    } else {
      FirstKeysAgree(a, b, leq);
      RestMapsAgree(a, b);
      SameMeaningSameText(a[0].value, b[0].value, leq);
      SameFields(a[1..], b[1..], leq);
    }
  }

  lemma {:induction false} FirstKeysAgree(a: seq<Field>, b: seq<Field>, leq: Order)
    requires Preorder(leq) && Sorted(a, leq) && Sorted(b, leq) && a != [] && Keys(a) == Keys(b)
    requires Apart(Keys(a), leq)
    ensures b != [] && a[0].key == b[0].key
  {
    assert a[0].key in Keys(a);
    assert b[0].key in Keys(b);
  }

  lemma RestMapsAgree(a: seq<Field>, b: seq<Field>)
    requires a != [] && b != [] && a[0].key == b[0].key && WfFields(a) && WfFields(b)
    requires DenoteFields(a) == DenoteFields(b)
    ensures Denote(a[0].value) == Denote(b[0].value) && DenoteFields(a[1..]) == DenoteFields(b[1..])
  {
    var key := a[0].key;
    assert DenoteFields(a)[key] == Denote(a[0].value) && DenoteFields(b)[key] == Denote(b[0].value);
    DenoteFieldsKeys(a[1..]);
    DenoteFieldsKeys(b[1..]);
    assert DenoteFields(a[1..]) == DenoteFields(a) - {key};
    assert DenoteFields(b[1..]) == DenoteFields(b) - {key};
  }

  // ----- Equal texts have equal meanings

  /** What may come after a value inside a canonical text. */
  predicate Follows(s: string) {
    s == "" || s[0] == ',' || s[0] == ']' || s[0] == '}'
  }

  predicate IsScalar(v: Value) {
    v.Undefined? || v.Null? || v.Bool? || v.Number?
  }

  lemma TokenLaw(v: Value)
    requires Wf(v) && IsScalar(v)
    ensures IsToken(Token(v))
  {
  }

  lemma TokenEnds(s: string, t: string, x: string, y: string)
    requires IsToken(t) && Follows(x) && s + x == t + y
    ensures |s| >= |t|
  {
    var all := s + x;
    assert |s| < |t| ==> all[|s|] == t[|s|];
    assert |s| < |all| ==> all[|s|] == x[0];
  }

  lemma TokenPrefix(s: string, t: string, x: string, y: string)
    requires IsToken(s) && IsToken(t) && Follows(x) && Follows(y) && s + x == t + y
    ensures s == t && x == y
  {
    TokenEnds(s, t, x, y);
    TokenEnds(t, s, y, x);
    if |s| == |t| {
      assert s == (s + x)[..|s|] && t == (t + y)[..|s|];
      assert x == (s + x)[|s|..] && y == (t + y)[|s|..];
    }
  }

  lemma TokensDiffer(v: Value, w: Value)
    requires Wf(v) && Wf(w) && IsScalar(v) && IsScalar(w) && Token(v) == Token(w)
    ensures v == w
  {
    assert "undefined"[0] == 'u' && "null"[0] == 'n' && "true"[0] == 't' && "false"[0] == 'f';
  }

  /** The first character tells strings, arrays, objects and scalars apart. */
  lemma {:induction false} FirstChar(v: Value, leq: Order)
    requires Wf(v)
    ensures Canonical(v, leq) != ""
    ensures Canonical(v, leq)[0] == '"' <==> v.Str?
    ensures Canonical(v, leq)[0] == '[' <==> v.Arr?
    ensures Canonical(v, leq)[0] == '{' <==> v.Obj?
    ensures IsScalar(v) ==> IsTokenChar(Canonical(v, leq)[0])
  {
    if IsScalar(v) {
      TokenLaw(v);
    }
  }

  /** Canonical texts are self-delimiting, and determine the meaning. */
  lemma {:induction false} CanonicalPrefix(v: Value, w: Value, x: string, y: string, leq: Order)
    requires Wf(v) && Wf(w) && Follows(x) && Follows(y)
    requires Canonical(v, leq) + x == Canonical(w, leq) + y
    ensures Denote(v) == Denote(w) && x == y
    decreases Size(v)
  {
    FirstChar(v, leq);
    FirstChar(w, leq);
    assert (Canonical(v, leq) + x)[0] == Canonical(v, leq)[0];
    assert (Canonical(w, leq) + y)[0] == Canonical(w, leq)[0];
    match v
    case Str(s) =>
      QuotePrefix(s, w.s, x, y);
    case Arr(a) =>
      var ta, tb := CanonicalElements(a, leq) + ("]" + x), CanonicalElements(w.elements, leq) + ("]" + y);
      Bracketed("[", CanonicalElements(a, leq), "]", x);
      Bracketed("[", CanonicalElements(w.elements, leq), "]", y);
      Tail("[", ta, "[", tb);
      ElementsPrefix(a, w.elements, x, y, leq);
    case Obj(a) =>
      var fa, fb := SortFields(a, leq), SortFields(w.fields, leq);
      var ta, tb := CanonicalFields(fa, leq) + ("}" + x), CanonicalFields(fb, leq) + ("}" + y);
      Bracketed("{", CanonicalFields(fa, leq), "}", x);
      Bracketed("{", CanonicalFields(fb, leq), "}", y);
      Tail("{", ta, "{", tb);
      SortKeeps(a, leq);
      SortKeeps(w.fields, leq);
      FieldsPrefix(fa, fb, x, y, leq);
    case _ =>
      TokenLaw(v);
      TokenLaw(w);
      TokenPrefix(Token(v), Token(w), x, y);
      TokensDiffer(v, w);
  }

  lemma SameEnd(a: string, b: string, x: string)
    requires a + x == b + x
    ensures a == b
  {
    assert a == (a + x)[..|a|] && b == (b + x)[..|b|];
  }

  /** The texts of an array's elements. */
  function ElementTexts(a: seq<Value>, leq: Order): (r: seq<string>)
    ensures |r| == |a|
  {
    if a == [] then [] else [Canonical(a[0], leq)] + ElementTexts(a[1..], leq)
  }

  /** The text after an element: the remaining elements, the bracket, and what follows. */
  function ElementsRest(a: seq<Value>, x: string, leq: Order): string {
    if a == [] then "]" + x else "," + (Canonical(a[0], leq) + ElementsRest(a[1..], x, leq))
  }

  lemma {:induction false} ElementsRestText(a: seq<Value>, x: string, leq: Order)
    ensures MoreElements(a, leq) + ("]" + x) == ElementsRest(a, x, leq)
  {
    if a == [] {
    } else {
      ElementsRestText(a[1..], x, leq);
      Regroup(",", Canonical(a[0], leq), MoreElements(a[1..], leq), "]" + x);
    }
  }

  lemma Regroup(a: string, b: string, c: string, d: string)
    ensures a + (b + c) + d == a + (b + (c + d))
    ensures b + c + d == b + (c + d)
  {
  }

  lemma {:induction false} ElementsPrefix(a: seq<Value>, b: seq<Value>, x: string, y: string, leq: Order)
    requires WfElements(a) && WfElements(b) && Follows(x) && Follows(y)
    requires CanonicalElements(a, leq) + ("]" + x) == CanonicalElements(b, leq) + ("]" + y)
    ensures DenoteElements(a) == DenoteElements(b) && ElementTexts(a, leq) == ElementTexts(b, leq) && x == y
    decreases SizeElements(a), 1
  {
    ElementsStart(a, x, leq);
    ElementsStart(b, y, leq);
    if a == [] {
      Tail("]", x, "]", y);
    } else {
      ElementsStep(a, b, x, y, leq);
    }
  }

  lemma {:induction false} ElementsStart(a: seq<Value>, x: string, leq: Order)
    requires WfElements(a)
    ensures var t := CanonicalElements(a, leq) + ("]" + x);
      && (t[0] == ']' <==> a == [])
      && t == (if a == [] then "]" + x else Canonical(a[0], leq) + ElementsRest(a[1..], x, leq))
  {
    if a != [] {
      FirstChar(a[0], leq);
      ElementsRestText(a[1..], x, leq);
      Regroup("", Canonical(a[0], leq), MoreElements(a[1..], leq), "]" + x);
    }
  }

  lemma {:induction false} ElementsStep(a: seq<Value>, b: seq<Value>, x: string, y: string, leq: Order)
    requires WfElements(a) && WfElements(b) && Follows(x) && Follows(y) && a != [] && b != []
    requires Canonical(a[0], leq) + ElementsRest(a[1..], x, leq) == Canonical(b[0], leq) + ElementsRest(b[1..], y, leq)
    ensures DenoteElements(a) == DenoteElements(b) && ElementTexts(a, leq) == ElementTexts(b, leq) && x == y
    decreases SizeElements(a), 0
  {
    var a1, b1 := a[1..], b[1..];
    var ra, rb := ElementsRest(a1, x, leq), ElementsRest(b1, y, leq);
    assert ra[0] == (if a1 == [] then ']' else ',') && rb[0] == (if b1 == [] then ']' else ',');
    CanonicalPrefix(a[0], b[0], ra, rb, leq);
    SameEnd(Canonical(a[0], leq), Canonical(b[0], leq), ra);
    if a1 == [] {
      Tail("]", x, "]", y);
    } else {
      Tail(",", Canonical(a1[0], leq) + ElementsRest(a1[1..], x, leq),
           ",", Canonical(b1[0], leq) + ElementsRest(b1[1..], y, leq));
      ElementsStep(a1, b1, x, y, leq);
    }
  }

  lemma {:induction false} ElementTextsAt(a: seq<Value>, i: nat, leq: Order)
    requires i < |a|
    ensures ElementTexts(a, leq)[i] == Canonical(a[i], leq)
  {
    if i == 0 {
    } else {
      ElementTextsAt(a[1..], i - 1, leq);
    }
  }

  /** The keys and value texts of an object's entries, in order. */
  function EntryTexts(a: seq<Field>, leq: Order): (r: seq<(string, string)>)
    ensures |r| == |a|
  {
    if a == [] then [] else [(a[0].key, Canonical(a[0].value, leq))] + EntryTexts(a[1..], leq)
  }

  lemma {:induction false} EntryTextsAt(a: seq<Field>, i: nat, leq: Order)
    requires i < |a|
    ensures EntryTexts(a, leq)[i] == (a[i].key, Canonical(a[i].value, leq))
  {
    if i == 0 {
    } else {
      EntryTextsAt(a[1..], i - 1, leq);
    }
  }

  /** The text after an entry: the remaining entries, the brace, and what follows. */
  function FieldsRest(a: seq<Field>, x: string, leq: Order): string {
    if a == [] then "}" + x else "," + (CanonicalField(a[0], leq) + FieldsRest(a[1..], x, leq))
  }

  lemma {:induction false} FieldsRestText(a: seq<Field>, x: string, leq: Order)
    ensures MoreFields(a, leq) + ("}" + x) == FieldsRest(a, x, leq)
  {
    if a == [] {
    } else {
      FieldsRestText(a[1..], x, leq);
      Regroup(",", CanonicalField(a[0], leq), MoreFields(a[1..], leq), "}" + x);
    }
  }

  lemma {:induction false} FieldsPrefix(a: seq<Field>, b: seq<Field>, x: string, y: string, leq: Order)
    requires WfFields(a) && WfFields(b) && Follows(x) && Follows(y)
    requires CanonicalFields(a, leq) + ("}" + x) == CanonicalFields(b, leq) + ("}" + y)
    ensures DenoteFields(a) == DenoteFields(b) && EntryTexts(a, leq) == EntryTexts(b, leq) && x == y
    decreases SizeFields(a), 2
  {
    FieldsStart(a, x, leq);
    FieldsStart(b, y, leq);
    if a == [] {
      Tail("}", x, "}", y);
    } else {
      FieldsStep(a, b, x, y, leq);
    }
  }

  lemma {:induction false} FieldsStart(a: seq<Field>, x: string, leq: Order)
    ensures var t := CanonicalFields(a, leq) + ("}" + x);
      && (t[0] == '}' <==> a == [])
      && t == (if a == [] then "}" + x else CanonicalField(a[0], leq) + FieldsRest(a[1..], x, leq))
  {
    if a != [] {
      FieldsRestText(a[1..], x, leq);
      Regroup("", CanonicalField(a[0], leq), MoreFields(a[1..], leq), "}" + x);
      assert CanonicalField(a[0], leq)[0] == '"';
    }
  }

  lemma {:induction false} FieldsStep(a: seq<Field>, b: seq<Field>, x: string, y: string, leq: Order)
    requires WfFields(a) && WfFields(b) && Follows(x) && Follows(y) && a != [] && b != []
    requires CanonicalField(a[0], leq) + FieldsRest(a[1..], x, leq)
      == CanonicalField(b[0], leq) + FieldsRest(b[1..], y, leq)
    ensures DenoteFields(a) == DenoteFields(b) && EntryTexts(a, leq) == EntryTexts(b, leq) && x == y
    decreases SizeFields(a), 1
  {
    var a1, b1 := a[1..], b[1..];
    var ra, rb := FieldsRest(a1, x, leq), FieldsRest(b1, y, leq);
    assert ra[0] == (if a1 == [] then '}' else ',') && rb[0] == (if b1 == [] then '}' else ',');
    FieldPrefix(a[0], b[0], ra, rb, leq);
    if a1 == [] {
      Tail("}", x, "}", y);
    } else {
      Tail(",", CanonicalField(a1[0], leq) + FieldsRest(a1[1..], x, leq),
           ",", CanonicalField(b1[0], leq) + FieldsRest(b1[1..], y, leq));
      FieldsStep(a1, b1, x, y, leq);
    }
  }

  /** One entry: its key, then its value. */
  lemma {:induction false} FieldPrefix(f: Field, g: Field, x: string, y: string, leq: Order)
    requires Wf(f.value) && Wf(g.value) && Follows(x) && Follows(y)
    requires CanonicalField(f, leq) + x == CanonicalField(g, leq) + y
    ensures f.key == g.key && Denote(f.value) == Denote(g.value) && x == y
    ensures Canonical(f.value, leq) == Canonical(g.value, leq)
    decreases Size(f.value) + 1, 0
  {
    var cf, cg := Canonical(f.value, leq) + x, Canonical(g.value, leq) + y;
    Regroup(Quote(f.key), ":", Canonical(f.value, leq), x);
    Regroup(Quote(g.key), ":", Canonical(g.value, leq), y);
    QuotePrefix(f.key, g.key, ":" + cf, ":" + cg);
    Tail(":", cf, ":", cg);
    CanonicalPrefix(f.value, g.value, x, y, leq);
    SameEnd(Canonical(f.value, leq), Canonical(g.value, leq), x);
  }

  // ----- Equal texts agree part by part

  lemma {:induction false} ArrayTexts(a: seq<Value>, b: seq<Value>, leq: Order)
    requires WfElements(a) && WfElements(b) && Canonical(Arr(a), leq) == Canonical(Arr(b), leq)
    ensures ElementTexts(a, leq) == ElementTexts(b, leq)
  {
    var ta, tb := CanonicalElements(a, leq) + "]", CanonicalElements(b, leq) + "]";
    Tail("[", ta, "[", tb);
    assert "]" + "" == "]";
    ElementsPrefix(a, b, "", "", leq);
  }

  lemma {:induction false} ObjectTexts(a: seq<Field>, b: seq<Field>, leq: Order)
    requires WfFields(a) && WfFields(b) && Canonical(Obj(a), leq) == Canonical(Obj(b), leq)
    ensures EntryTexts(SortFields(a, leq), leq) == EntryTexts(SortFields(b, leq), leq)
  {
    var fa, fb := SortFields(a, leq), SortFields(b, leq);
    Tail("{", CanonicalFields(fa, leq) + "}", "{", CanonicalFields(fb, leq) + "}");
    SortKeeps(a, leq);
    SortKeeps(b, leq);
    FieldTexts(fa, fb, leq);
  }

  lemma {:induction false} FieldTexts(a: seq<Field>, b: seq<Field>, leq: Order)
    requires WfFields(a) && WfFields(b) && CanonicalFields(a, leq) + "}" == CanonicalFields(b, leq) + "}"
    ensures EntryTexts(a, leq) == EntryTexts(b, leq)
  {
    assert "}" + "" == "}";
    FieldsPrefix(a, b, "", "", leq);
  }

  lemma {:induction false} InsertEntryTexts(f: Field, fields: seq<Field>, leq: Order)
    ensures multiset(EntryTexts(Insert(f, fields, ByName(leq)), leq))
      == multiset{(f.key, Canonical(f.value, leq))} + multiset(EntryTexts(fields, leq))
  {
    assert ([f] + fields)[1..] == fields;
    if fields == [] || leq(f.key, fields[0].key) {
    } else {
      InsertEntryTexts(f, fields[1..], leq);
      assert ([fields[0]] + Insert(f, fields[1..], ByName(leq)))[1..] == Insert(f, fields[1..], ByName(leq));
    }
  }

  /** Sorting keeps the entries. */
  lemma {:induction false} SortEntryTexts(fields: seq<Field>, leq: Order)
    ensures multiset(EntryTexts(SortFields(fields, leq), leq)) == multiset(EntryTexts(fields, leq))
  {
    if fields == [] {
    } else {
      SortEntryTexts(fields[1..], leq);
      InsertEntryTexts(fields[0], SortFields(fields[1..], leq), leq);
    }
  }

  lemma {:induction false} KeyAt(fields: seq<Field>, i: nat)
    requires i < |fields|
    ensures fields[i].key in Keys(fields)
  {
    if i == 0 {
    } else {
      KeyAt(fields[1..], i - 1);
    }
  }

  lemma {:induction false} KeysDistinct(fields: seq<Field>, i: nat, j: nat)
    requires WfFields(fields) && i < j < |fields|
    ensures fields[i].key != fields[j].key
  {
    if i == 0 {
      KeyAt(fields[1..], j - 1);
    } else {
      KeysDistinct(fields[1..], i - 1, j - 1);
    }
  }

  lemma SameKeySameIndex(fields: seq<Field>, i: nat, j: nat)
    requires WfFields(fields) && i < |fields| && j < |fields| && fields[i].key == fields[j].key
    ensures i == j
  {
    if i < j {
      KeysDistinct(fields, i, j);
    } else if j < i {
      KeysDistinct(fields, j, i);
    }
  }

  lemma {:induction false} SameEntries(a: seq<Field>, b: seq<Field>, leq: Order)
    requires WfFields(a) && WfFields(b) && Canonical(Obj(a), leq) == Canonical(Obj(b), leq)
    ensures multiset(EntryTexts(a, leq)) == multiset(EntryTexts(b, leq))
  {
    ObjectTexts(a, b, leq);
    SortEntryTexts(a, leq);
    SortEntryTexts(b, leq);
  }

  /** Objects with equal texts print the values of equal keys alike. */
  lemma {:induction false} EntryTextsAgree(a: seq<Field>, b: seq<Field>, i: nat, leq: Order)
    requires WfFields(a) && WfFields(b) && Canonical(Obj(a), leq) == Canonical(Obj(b), leq)
    requires i < |a| && i < |b| && a[i].key == b[i].key
    ensures Canonical(a[i].value, leq) == Canonical(b[i].value, leq)
  {
    SameEntries(a, b, leq);
    assert EntryTexts(a, leq)[i] in multiset(EntryTexts(b, leq));
    var j :| 0 <= j < |b| && EntryTexts(b, leq)[j] == EntryTexts(a, leq)[i];
    EntryTextsAt(a, i, leq);
    EntryTextsAt(b, j, leq);
    SameKeySameIndex(b, i, j);
  }

  lemma {:induction false} ElementTextsAgree(a: seq<Value>, b: seq<Value>, i: nat, leq: Order)
    requires WfElements(a) && WfElements(b) && Canonical(Arr(a), leq) == Canonical(Arr(b), leq)
    requires i < |a| && i < |b|
    ensures Canonical(a[i], leq) == Canonical(b[i], leq)
  {
    ArrayTexts(a, b, leq);
    ElementTextsAt(a, i, leq);
    ElementTextsAt(b, i, leq);
  }

  // ----- Ties print apart

  /** The first entry with one of the two keys has key a. */
  predicate Leads(a: string, b: string, fields: seq<Field>) {
    fields != [] && (fields[0].key == a || (fields[0].key != b && Leads(a, b, fields[1..])))
  }

  lemma {:induction false} InsertLeads(f: Field, b: string, fields: seq<Field>, leq: Order)
    requires Preorder(leq) && leq(f.key, b)
    ensures Leads(f.key, b, Insert(f, fields, ByName(leq)))
  {
    if fields == [] || leq(f.key, fields[0].key) {
    } else {
      InsertLeads(f, b, fields[1..], leq);
      assert ([fields[0]] + Insert(f, fields[1..], ByName(leq)))[1..] == Insert(f, fields[1..], ByName(leq));
    }
  }

  lemma {:induction false} LeadersAgree(a: string, b: string, x: seq<Field>, y: seq<Field>, leq: Order)
    requires Leads(a, b, x) && Leads(b, a, y) && EntryTexts(x, leq) == EntryTexts(y, leq)
    ensures a == b
  {
    assert x[0].key == EntryTexts(x, leq)[0].0 == EntryTexts(y, leq)[0].0 == y[0].key;
    if x[0].key == a || x[0].key == b {
    } else {
      assert EntryTexts(x[1..], leq) == EntryTexts(x, leq)[1..] == EntryTexts(y, leq)[1..];
      LeadersAgree(a, b, x[1..], y[1..], leq);
    }
  }

  /** The entries with the given one moved to the front. */
  function ToFront(fields: seq<Field>, i: nat): seq<Field>
    requires i < |fields|
  {
    [fields[i]] + (fields[..i] + fields[i + 1..])
  }

  lemma SwapFirst(f: Field, g: Field, fields: seq<Field>)
    requires WfFields([f] + ([g] + fields))
    ensures WfFields([g] + ([f] + fields)) && Keys([g] + ([f] + fields)) == Keys([f] + ([g] + fields))
    ensures DenoteFields([g] + ([f] + fields)) == DenoteFields([f] + ([g] + fields))
  {
    Cons(f, [g] + fields);
    Cons(g, fields);
    Cons(g, [f] + fields);
    Cons(f, fields);
  }

  lemma ToFrontStep(fields: seq<Field>, i: nat)
    requires 0 < i < |fields|
    ensures var rest := fields[1..];
      var others := rest[..i - 1] + rest[i..];
      && ToFront(rest, i - 1) == [fields[i]] + others
      && ToFront(fields, i) == [fields[i]] + ([fields[0]] + others)
  {
  }

  /** The same head over entries with the same keys and the same meaning. */
  lemma Replaced(head: Field, rest: seq<Field>, other: seq<Field>)
    requires WfFields([head] + rest) && WfFields(other)
    requires Keys(other) == Keys(rest) && DenoteFields(other) == DenoteFields(rest)
    ensures WfFields([head] + other) && Keys([head] + other) == Keys([head] + rest)
    ensures DenoteFields([head] + other) == DenoteFields([head] + rest)
  {
    Cons(head, rest);
    Cons(head, other);
  }

  lemma {:induction false} ToFrontKeeps(fields: seq<Field>, i: nat)
    requires WfFields(fields) && i < |fields|
    ensures WfFields(ToFront(fields, i)) && Keys(ToFront(fields, i)) == Keys(fields)
    ensures DenoteFields(ToFront(fields, i)) == DenoteFields(fields)
  {
    if i == 0 {
      assert ToFront(fields, 0) == fields;
    } else {
      var head, rest := fields[0], fields[1..];
      var others := rest[..i - 1] + rest[i..];
      ToFrontKeeps(rest, i - 1);
      ToFrontStep(fields, i);
      Replaced(head, rest, [fields[i]] + others);
      SwapFirst(head, fields[i], others);
      assert [head] + rest == fields;
    }
  }

  /** Two distinct keys that the comparator ties print in insertion order. */
  lemma {:induction false} TiedKeysPrintApart(fields: seq<Field>, i: nat, j: nat, leq: Order) returns (w: Value)
    requires Preorder(leq) && WfFields(fields) && i < |fields| && j < |fields| && fields[i].key != fields[j].key
    requires leq(fields[i].key, fields[j].key) && leq(fields[j].key, fields[i].key)
    ensures Wf(w) && Denote(w) == Denote(Obj(fields)) && !JsonEqual(Obj(fields), w, leq)
  {
    var x, y := ToFront(fields, i), ToFront(fields, j);
    ToFrontKeeps(fields, i);
    ToFrontKeeps(fields, j);
    InsertLeads(fields[i], fields[j].key, SortFields(x[1..], leq), leq);
    InsertLeads(fields[j], fields[i].key, SortFields(y[1..], leq), leq);
    if JsonEqual(Obj(x), Obj(y), leq) {
      ObjectTexts(x, y, leq);
      LeadersAgree(fields[i].key, fields[j].key, SortFields(x, leq), SortFields(y, leq), leq);
    }
    w := if JsonEqual(Obj(fields), Obj(x), leq) then Obj(y) else Obj(x);
  }

  lemma {:induction false} UpdateElement(elements: seq<Value>, i: nat, v: Value)
    requires WfElements(elements) && i < |elements| && Wf(v) && Denote(v) == Denote(elements[i])
    ensures WfElements(elements[i := v]) && DenoteElements(elements[i := v]) == DenoteElements(elements)
  {
    if i == 0 {
      assert elements[0 := v][1..] == elements[1..];
    } else {
      UpdateElement(elements[1..], i - 1, v);
      assert elements[i := v][1..] == elements[1..][i - 1 := v];
    }
  }

  lemma {:induction false} UpdateField(fields: seq<Field>, i: nat, v: Value)
    requires WfFields(fields) && i < |fields| && Wf(v) && Denote(v) == Denote(fields[i].value)
    ensures var updated := fields[i := Field(fields[i].key, v)];
      WfFields(updated) && Keys(updated) == Keys(fields) && DenoteFields(updated) == DenoteFields(fields)
  {
    var updated := fields[i := Field(fields[i].key, v)];
    if i == 0 {
      assert updated[1..] == fields[1..];
    } else {
      UpdateField(fields[1..], i - 1, v);
      assert updated[1..] == fields[1..][i - 1 := Field(fields[i].key, v)];
    }
  }

  lemma {:induction false} WfElementAt(elements: seq<Value>, i: nat)
    requires WfElements(elements) && i < |elements|
    ensures Wf(elements[i])
  {
    if i == 0 {
    } else {
      WfElementAt(elements[1..], i - 1);
    }
  }

  lemma {:induction false} WfFieldAt(fields: seq<Field>, i: nat)
    requires WfFields(fields) && i < |fields|
    ensures Wf(fields[i].value)
  {
    if i == 0 {
    } else {
      WfFieldAt(fields[1..], i - 1);
    }
  }

  /** A tie anywhere inside a value: another value of the same meaning has another text. */
  lemma {:induction false} TiesPrintApart(v: Value, leq: Order) returns (w: Value)
    requires Preorder(leq) && Wf(v) && !NoTies(v, leq)
    ensures Wf(w) && Denote(w) == Denote(v) && !JsonEqual(v, w, leq)
    decreases v
  {
    match v
    case Arr(elements) =>
      var i :| 0 <= i < |elements| && !NoTies(elements[i], leq);
      WfElementAt(elements, i);
      var u := TiesPrintApart(elements[i], leq);
      w := Arr(elements[i := u]);
      UpdateElement(elements, i, u);
      if JsonEqual(v, w, leq) {
        ElementTextsAgree(elements, w.elements, i, leq);
      }
    case Obj(fields) =>
      if Apart(Keys(fields), leq) {
        var i :| 0 <= i < |fields| && !NoTies(fields[i].value, leq);
        WfFieldAt(fields, i);
        var u := TiesPrintApart(fields[i].value, leq);
        w := Obj(fields[i := Field(fields[i].key, u)]);
        UpdateField(fields, i, u);
        if JsonEqual(v, w, leq) {
          EntryTextsAgree(fields, w.fields, i, leq);
        }
      } else {
        var i, j := TiedKeys(fields, leq);
        w := TiedKeysPrintApart(fields, i, j, leq);
      }
  }

  lemma {:induction false} IndexOfKey(fields: seq<Field>, key: string) returns (i: nat)
    requires key in Keys(fields)
    ensures i < |fields| && fields[i].key == key
  {
    if fields[0].key == key {
      i := 0;
    } else {
      i := IndexOfKey(fields[1..], key);
      i := i + 1;
    }
  }

  lemma {:induction false} TiedKeys(fields: seq<Field>, leq: Order) returns (i: nat, j: nat)
    requires !Apart(Keys(fields), leq)
    ensures i < |fields| && j < |fields| && fields[i].key != fields[j].key
    ensures leq(fields[i].key, fields[j].key) && leq(fields[j].key, fields[i].key)
  {
    var a, b :| a in Keys(fields) && b in Keys(fields) && leq(a, b) && leq(b, a) && a != b;
    i := IndexOfKey(fields, a);
    j := IndexOfKey(fields, b);
  }

  // ----- The equality test

  /** For a value in which the comparator ties no distinct keys of an object, equal texts are exactly
      equal meanings, whatever the insertion orders and whatever the other value. */
  lemma {:induction false} CanonicalDecidesMeaning(v: Value, w: Value, leq: Order)
    requires Preorder(leq) && NoTies(v, leq) && Wf(v) && Wf(w)
    ensures JsonEqual(v, w, leq) <==> Denote(v) == Denote(w)
  {
    if JsonEqual(v, w, leq) {
      CanonicalPrefix(v, w, "", "", leq);
    } else if Denote(v) == Denote(w) {
      SameMeaningSameText(v, w, leq);
    }
  }

  /** The test recognises every value of the same meaning, and no other. */
  ghost predicate DecidesFor(v: Value, leq: Order) {
    forall w :: Wf(w) ==> (JsonEqual(v, w, leq) <==> Denote(v) == Denote(w))
  }

  /** The test decides equality with a value exactly when no object inside it holds two distinct keys
      that the comparator ties; with a tie, reordering the entries of that object is mistaken for a
      change. It never takes different meanings for equal. */
  lemma {:induction false} DecidesIffNoTies(v: Value, leq: Order)
    requires Preorder(leq) && Wf(v)
    ensures DecidesFor(v, leq) <==> NoTies(v, leq)
    ensures forall w :: Wf(w) && JsonEqual(v, w, leq) ==> Denote(v) == Denote(w)
  {
    forall w | Wf(w) && JsonEqual(v, w, leq) ensures Denote(v) == Denote(w) {
      CanonicalPrefix(v, w, "", "", leq);
    }
    if NoTies(v, leq) {
      forall w | Wf(w) ensures JsonEqual(v, w, leq) <==> Denote(v) == Denote(w) {
        CanonicalDecidesMeaning(v, w, leq);
      }
    } else {
      var w := TiesPrintApart(v, leq);
    }
  }
}
