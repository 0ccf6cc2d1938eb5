/** A JSON text has one reading: the printed text of a value, whatever its layout, determines the value
    without its blanks. What a decoder returns can therefore be a function of the text. */
module JsonUnique {
  import opened Common
  import opened JsonText

  // ----- Cutting equal texts

  lemma Cut(a: string, b: string, x: string, y: string)
    requires |a| == |b| && a + x == b + y
    ensures a == b && x == y
  {
    assert a == (a + x)[..|a|] && b == (b + y)[..|b|];
    assert x == (a + x)[|a|..] && y == (b + y)[|b|..];
  }

  predicate Solid(s: string) {
    s != "" && !IsBlank(s[0])
  }

  type CharClass = char -> bool

  /** How many leading characters belong to the class. */
  function Leading(s: string, within: CharClass): nat {
    if s != "" && within(s[0]) then 1 + Leading(s[1..], within) else 0
  }

  lemma {:induction false} LeadingEnds(a: string, x: string, within: CharClass)
    requires (forall i :: 0 <= i < |a| ==> within(a[i])) && (x == "" || !within(x[0]))
    ensures Leading(a + x, within) == |a|
  {
    if a == "" {
      assert a + x == x;
    } else {
      assert (a + x)[1..] == a[1..] + x;
      LeadingEnds(a[1..], x, within);
    }
  }

  lemma BlankPrefix(a: string, b: string, x: string, y: string)
    requires Blank(a) && Blank(b) && Solid(x) && Solid(y) && a + x == b + y
    ensures a == b && x == y
  {
    LeadingEnds(a, x, IsBlank);
    LeadingEnds(b, y, IsBlank);
    Cut(a, b, x, y);
  }

  // ----- Strings

  lemma PiecePrefix(p: Piece, q: Piece, x: string, y: string)
    requires WfPiece(p) && WfPiece(q) && PieceText(p) + x == PieceText(q) + y
    ensures p == q && x == y
  {
    var t, u := PieceText(p) + x, PieceText(q) + y;
    assert t[0] == u[0] && PieceText(p)[0] == t[0] && PieceText(q)[0] == u[0];
    if !p.Plain? {
      assert PieceText(p)[1] == t[1] && PieceText(q)[1] == u[1];
    }
    Cut(PieceText(p), PieceText(q), x, y);
    if p.CodeUnit? {
      assert p.hex == PieceText(p)[2..] && q.hex == PieceText(q)[2..];
    }
  }

  /** The text of the pieces of a string body, the quote, and what follows. */
  function PiecesRest(pieces: seq<Piece>, x: string): string {
    if pieces == [] then "\"" + x else PieceText(pieces[0]) + PiecesRest(pieces[1..], x)
  }

  lemma {:induction false} PiecesRestText(pieces: seq<Piece>, x: string)
    ensures PiecesText(pieces) + ("\"" + x) == PiecesRest(pieces, x)
  {
    if pieces == [] {
      assert "" + ("\"" + x) == "\"" + x;
    } else {
      PiecesRestText(pieces[1..], x);
      Associate(PieceText(pieces[0]), PiecesText(pieces[1..]), "\"" + x);
    }
  }

  lemma PiecesStart(pieces: seq<Piece>, x: string)
    requires WfPieces(pieces)
    ensures PiecesRest(pieces, x)[0] == '"' <==> pieces == []
  {
    if pieces != [] {
      assert WfPiece(pieces[0]);
      assert PiecesRest(pieces, x)[0] == PieceText(pieces[0])[0];
    }
  }

  lemma {:induction false} PiecesPrefix(p: seq<Piece>, q: seq<Piece>, x: string, y: string)
    requires WfPieces(p) && WfPieces(q) && PiecesRest(p, x) == PiecesRest(q, y)
    ensures p == q && x == y
  {
    PiecesStart(p, x);
    PiecesStart(q, y);
    if p == [] {
      Cut("\"", "\"", x, y);
    } else {
      PiecePrefix(p[0], q[0], PiecesRest(p[1..], x), PiecesRest(q[1..], y));
      PiecesPrefix(p[1..], q[1..], x, y);
      assert p == [p[0]] + p[1..] && q == [q[0]] + q[1..];
    }
  }

  // ----- Literals

  /** What comes after a value does not continue a literal. */
  predicate Ends(x: string) {
    x == "" || !IsLiteralChar(x[0])
  }

  lemma LiteralPrefix(s: string, t: string, x: string, y: string)
    requires Wf(Literal(s)) && Wf(Literal(t)) && Ends(x) && Ends(y) && s + x == t + y
    ensures s == t && x == y
  {
    LeadingEnds(s, x, IsLiteralChar);
    LeadingEnds(t, y, IsLiteralChar);
    Cut(s, t, x, y);
  }

  // ----- Values

  /** The text of a value and what follows, grouped to the right. */
  function Rest(v: Json, x: string): string
    decreases v, 1
  {
    match v
    case Literal(text) => text + x
    case Str(pieces) => "\"" + PiecesRest(pieces, x)
    case Arr(space, items) => "[" + (if items == [] then space + ("]" + x) else ItemsRest(items, x))
    case Obj(space, members) => "{" + (if members == [] then space + ("}" + x) else MembersRest(members, x))
  }

  function ItemsRest(items: seq<Item>, x: string): string
    requires items != []
    decreases items, 2
  {
    items[0].before
      + Rest(items[0].value, items[0].after + (if |items| == 1 then "]" + x else "," + ItemsRest(items[1..], x)))
  }

  function MembersRest(members: seq<Member>, x: string): string
    requires members != []
    decreases members, 2
  {
    var m := members[0];
    m.before + ("\"" + PiecesRest(m.name, m.middle + (":" + (m.inner
      + Rest(m.value, m.after + (if |members| == 1 then "}" + x else "," + MembersRest(members[1..], x)))))))
  }

  lemma {:induction false} RestText(v: Json, x: string)
    ensures Text(v) + x == Rest(v, x)
    decreases v, 1
  {
    match v
    case Literal(_) =>
    case Str(pieces) =>
      Associate("\"" + PiecesText(pieces), "\"", x);
      Associate("\"", PiecesText(pieces), "\"" + x);
      PiecesRestText(pieces, x);
    case Arr(space, items) =>
      var inner := if items == [] then space else ItemsText(items);
      Associate("[" + inner, "]", x);
      Associate("[", inner, "]" + x);
      if items != [] {
        ItemsRestText(items, x);
      }
    case Obj(space, members) =>
      var inner := if members == [] then space else MembersText(members);
      Associate("{" + inner, "}", x);
      Associate("{", inner, "}" + x);
      if members != [] {
        MembersRestText(members, x);
      }
  }

  lemma {:induction false} ItemsRestText(items: seq<Item>, x: string)
    requires items != []
    ensures ItemsText(items) + ("]" + x) == ItemsRest(items, x)
    decreases items, 0
  {
    var item := items[0];
    var more := if |items| == 1 then "" else "," + ItemsText(items[1..]);
    var rest := if |items| == 1 then "]" + x else "," + ItemsRest(items[1..], x);
    assert more + ("]" + x) == rest by {
      if |items| > 1 {
        ItemsRestText(items[1..], x);
        Associate(",", ItemsText(items[1..]), "]" + x);
      }
    }
    assert ItemsText(items) == ItemText(item) + more;
    Associate(ItemText(item), more, "]" + x);
    Associate(item.before + Text(item.value), item.after, rest);
    Associate(item.before, Text(item.value), item.after + rest);
    RestText(item.value, item.after + rest);
  }

  lemma {:induction false} MembersRestText(members: seq<Member>, x: string)
    requires members != []
    ensures MembersText(members) + ("}" + x) == MembersRest(members, x)
    decreases members, 0
  {
    var m := members[0];
    var more := if |members| == 1 then "" else "," + MembersText(members[1..]);
    var rest := if |members| == 1 then "}" + x else "," + MembersRest(members[1..], x);
    assert more + ("}" + x) == rest by {
      if |members| > 1 {
        MembersRestText(members[1..], x);
        Associate(",", MembersText(members[1..]), "}" + x);
      }
    }
    assert MembersText(members) == MemberText(m) + more;
    Associate(MemberText(m), more, "}" + x);
    RestText(m.value, m.after + rest);
    MemberRestText(m, rest);
  }

  lemma MemberRestText(m: Member, rest: string)
    requires Text(m.value) + (m.after + rest) == Rest(m.value, m.after + rest)
    ensures MemberText(m) + rest
      == m.before + ("\"" + PiecesRest(m.name, m.middle + (":" + (m.inner + Rest(m.value, m.after + rest)))))
  {
    var value := Rest(m.value, m.after + rest);
    var named := m.before + StringText(m.name);
    Associate(named + m.middle + (":" + m.inner) + Text(m.value), m.after, rest);
    Associate(named + m.middle + (":" + m.inner), Text(m.value), m.after + rest);
    Associate(named + m.middle, ":" + m.inner, value);
    Associate(":", m.inner, value);
    Associate(named, m.middle, ":" + (m.inner + value));
    var tail := m.middle + (":" + (m.inner + value));
    Associate(m.before, StringText(m.name), tail);
    Associate("\"" + PiecesText(m.name), "\"", tail);
    Associate("\"", PiecesText(m.name), "\"" + tail);
    PiecesRestText(m.name, tail);
  }

  // ----- One reading

  predicate IsStart(c: char) {
    IsLiteralChar(c) || c == '"' || c == '[' || c == '{'
  }

  /** The first character tells the kinds apart and is never a blank, comma or closing bracket. */
  lemma FirstChar(v: Json, x: string)
    requires Wf(v)
    ensures Rest(v, x) != "" && IsStart(Rest(v, x)[0]) && Solid(Rest(v, x))
    ensures Rest(v, x)[0] == '"' <==> v.Str?
    ensures Rest(v, x)[0] == '[' <==> v.Arr?
    ensures Rest(v, x)[0] == '{' <==> v.Obj?
  {
  }

  /** A value's text determines the value up to its blanks, and where it ends. */
  lemma {:induction false} OneReading(v: Json, w: Json, x: string, y: string)
    requires Wf(v) && Wf(w) && Ends(x) && Ends(y) && Rest(v, x) == Rest(w, y)
    ensures Strip(v) == Strip(w) && x == y
    decreases v, 1
  {
    FirstChar(v, x);
    FirstChar(w, y);
    match v
    case Literal(s) =>
      LiteralPrefix(s, w.text, x, y);
    case Str(p) =>
      Cut("\"", "\"", PiecesRest(p, x), PiecesRest(w.pieces, y));
      PiecesPrefix(p, w.pieces, x, y);
    case Arr(space, items) =>
      var a := if items == [] then space + ("]" + x) else ItemsRest(items, x);
      var b := if w.items == [] then w.space + ("]" + y) else ItemsRest(w.items, y);
      Cut("[", "[", a, b);
      ItemsReading(space, items, w.space, w.items, x, y);
    case Obj(space, members) =>
      var a := if members == [] then space + ("}" + x) else MembersRest(members, x);
      var b := if w.members == [] then w.space + ("}" + y) else MembersRest(w.members, y);
      Cut("{", "{", a, b);
      MembersReading(space, members, w.space, w.members, x, y);
  }

  function ItemsInner(space: string, items: seq<Item>, x: string): string {
    if items == [] then space + ("]" + x) else ItemsRest(items, x)
  }

  lemma ItemsInnerSplit(space: string, items: seq<Item>, x: string) returns (blanks: string, rest: string)
    requires Blank(space) && WfItems(items)
    ensures ItemsInner(space, items, x) == blanks + rest && Blank(blanks) && Solid(rest)
    ensures rest[0] == ']' <==> items == []
    ensures items == [] ==> rest == "]" + x
    ensures items != [] ==> blanks == items[0].before && rest == Rest(items[0].value, AfterItem(items, x))
  {
    if items == [] {
      blanks, rest := space, "]" + x;
    } else {
      FirstChar(items[0].value, AfterItem(items, x));
      blanks, rest := items[0].before, Rest(items[0].value, AfterItem(items, x));
    }
  }

  function AfterItem(items: seq<Item>, x: string): string
    requires items != []
  {
    items[0].after + (if |items| == 1 then "]" + x else "," + ItemsRest(items[1..], x))
  }

  lemma {:induction false} ItemsReading(
      space: string, a: seq<Item>, other: string, b: seq<Item>, x: string, y: string)
    requires Blank(space) && Blank(other) && WfItems(a) && WfItems(b) && Ends(x) && Ends(y)
    requires ItemsInner(space, a, x) == ItemsInner(other, b, y)
    ensures StripItems(a) == StripItems(b) && x == y
    decreases a, 2
  {
    var p, s := ItemsInnerSplit(space, a, x);
    var q, t := ItemsInnerSplit(other, b, y);
    BlankPrefix(p, q, s, t);
    if a == [] {
      Cut("]", "]", x, y);
    } else {
      ItemsStep(a, b, x, y);
    }
  }

  lemma {:induction false} ItemsStep(a: seq<Item>, b: seq<Item>, x: string, y: string)
    requires a != [] && b != [] && WfItems(a) && WfItems(b) && Ends(x) && Ends(y)
    requires Rest(a[0].value, AfterItem(a, x)) == Rest(b[0].value, AfterItem(b, y))
    ensures StripItems(a) == StripItems(b) && x == y
    decreases a, 1
  {
    var r := if |a| == 1 then "]" + x else "," + ItemsRest(a[1..], x);
    var s := if |b| == 1 then "]" + y else "," + ItemsRest(b[1..], y);
    BlankEnds(a[0].after, r);
    BlankEnds(b[0].after, s);
    OneReading(a[0].value, b[0].value, AfterItem(a, x), AfterItem(b, y));
    BlankPrefix(a[0].after, b[0].after, r, s);
    if |a| == 1 {
      Cut("]", "]", x, y);
      assert a[1..] == [] && b[1..] == [];
    } else {
      Cut(",", ",", ItemsRest(a[1..], x), ItemsRest(b[1..], y));
      ItemsReading("", a[1..], "", b[1..], x, y);
    }
  }

  lemma BlankEnds(after: string, rest: string)
    requires Blank(after) && Solid(rest) && Ends(rest)
    ensures Ends(after + rest)
  {
  }

  function MembersInner(space: string, members: seq<Member>, x: string): string {
    if members == [] then space + ("}" + x) else MembersRest(members, x)
  }

  function AfterMember(members: seq<Member>, x: string): string
    requires members != []
  {
    members[0].after + (if |members| == 1 then "}" + x else "," + MembersRest(members[1..], x))
  }

  /** From the colon of a member on. */
  function FromColon(members: seq<Member>, x: string): string
    requires members != []
  {
    ":" + (members[0].inner + Rest(members[0].value, AfterMember(members, x)))
  }

  lemma MembersInnerSplit(space: string, members: seq<Member>, x: string) returns (blanks: string, rest: string)
    requires Blank(space) && WfMembers(members)
    ensures MembersInner(space, members, x) == blanks + rest && Blank(blanks) && Solid(rest)
    ensures rest[0] == '}' <==> members == []
    ensures members == [] ==> rest == "}" + x
    ensures members != [] ==> blanks == members[0].before
    ensures members != [] ==> rest == "\"" + PiecesRest(members[0].name, members[0].middle + FromColon(members, x))
  {
    if members == [] {
      blanks, rest := space, "}" + x;
    } else {
      blanks := members[0].before;
      rest := "\"" + PiecesRest(members[0].name, members[0].middle + FromColon(members, x));
    }
  }

  lemma {:induction false} MembersReading(
      space: string, a: seq<Member>, other: string, b: seq<Member>, x: string, y: string)
    requires Blank(space) && Blank(other) && WfMembers(a) && WfMembers(b) && Ends(x) && Ends(y)
    requires MembersInner(space, a, x) == MembersInner(other, b, y)
    ensures StripMembers(a) == StripMembers(b) && x == y
    decreases a, 2
  {
    var p, s := MembersInnerSplit(space, a, x);
    var q, t := MembersInnerSplit(other, b, y);
    BlankPrefix(p, q, s, t);
    if a == [] {
      Cut("}", "}", x, y);
    } else {
      var u, w := a[0].middle + FromColon(a, x), b[0].middle + FromColon(b, y);
      Cut("\"", "\"", PiecesRest(a[0].name, u), PiecesRest(b[0].name, w));
      PiecesPrefix(a[0].name, b[0].name, u, w);
      BlankPrefix(a[0].middle, b[0].middle, FromColon(a, x), FromColon(b, y));
      MembersStep(a, b, x, y);
    }
  }

  lemma {:induction false} MembersStep(a: seq<Member>, b: seq<Member>, x: string, y: string)
    requires a != [] && b != [] && WfMembers(a) && WfMembers(b) && Ends(x) && Ends(y)
    requires a[0].name == b[0].name && FromColon(a, x) == FromColon(b, y)
    ensures StripMembers(a) == StripMembers(b) && x == y
    decreases a, 1
  {
    var r := if |a| == 1 then "}" + x else "," + MembersRest(a[1..], x);
    var s := if |b| == 1 then "}" + y else "," + MembersRest(b[1..], y);
    FirstChar(a[0].value, AfterMember(a, x));
    FirstChar(b[0].value, AfterMember(b, y));
    var va, vb := Rest(a[0].value, AfterMember(a, x)), Rest(b[0].value, AfterMember(b, y));
    Cut(":", ":", a[0].inner + va, b[0].inner + vb);
    BlankPrefix(a[0].inner, b[0].inner, va, vb);
    BlankEnds(a[0].after, r);
    BlankEnds(b[0].after, s);
    OneReading(a[0].value, b[0].value, AfterMember(a, x), AfterMember(b, y));
    BlankPrefix(a[0].after, b[0].after, r, s);
    if |a| == 1 {
      Cut("}", "}", x, y);
      assert a[1..] == [] && b[1..] == [];
    } else {
      Cut(",", ",", MembersRest(a[1..], x), MembersRest(b[1..], y));
      MembersReading("", a[1..], "", b[1..], x, y);
    }
  }

  // ----- Texts and documents

  /** Two layouts with the same text are layouts of the same value. */
  lemma TextDetermines(v: Json, w: Json)
    requires Wf(v) && Wf(w) && Text(v) == Text(w)
    ensures Strip(v) == Strip(w)
  {
    RestText(v, "");
    RestText(w, "");
    assert Text(v) + "" == Text(w) + "";
    OneReading(v, w, "", "");
  }

  /** A document without the blanks before its root. */
  lemma DocumentRest(doc: Document)
    requires WfDocument(doc)
    ensures DocumentText(doc) == doc.lead + Rest(Arr(doc.space, doc.items), doc.trail)
  {
    var root := Arr(doc.space, doc.items);
    RestText(root, doc.trail);
    assert Text(root) == "[" + ArrayInner(doc) + "]";
    assert DocumentText(doc) == doc.lead + (Text(root) + doc.trail);
  }

  /** The text of an array determines its elements up to their blanks. */
  lemma DocumentDetermines(a: Document, b: Document)
    requires WfDocument(a) && WfDocument(b) && DocumentText(a) == DocumentText(b)
    ensures StripItems(a.items) == StripItems(b.items)
  {
    var v, w := Arr(a.space, a.items), Arr(b.space, b.items);
    DocumentRest(a);
    DocumentRest(b);
    FirstChar(v, a.trail);
    FirstChar(w, b.trail);
    BlankPrefix(a.lead, b.lead, Rest(v, a.trail), Rest(w, b.trail));
    assert Ends(a.trail) && Ends(b.trail);
    OneReading(v, w, a.trail, b.trail);
    assert Strip(v) == Arr("", StripItems(a.items)) && Strip(w) == Arr("", StripItems(b.items));
  }
}
