/** JSON texts as concrete syntax: values that remember every blank, so that one abstract value has
    all its layouts (sections 2, 4, 5 and 7 of RFC 8259). A text is a sequence of characters;
    every character the scanner reacts to is ASCII, so offsets stand for the source's byte offsets. */
module JsonText {

  // ----- Characters

  /** Insignificant whitespace of section 2. */
  predicate IsBlank(c: char) {
    c == ' ' || c == '\t' || c == '\n' || c == '\r'
  }

  predicate Blank(s: string) {
    forall i :: 0 <= i < |s| ==> IsBlank(s[i])
  }

  /** Characters of numbers and of `true`, `false` and `null`. */
  predicate IsLiteralChar(c: char) {
    '0' <= c <= '9' || 'a' <= c <= 'z' || c == 'E' || c == '+' || c == '-' || c == '.'
  }

  predicate IsHex(c: char) {
    '0' <= c <= '9' || 'a' <= c <= 'f' || 'A' <= c <= 'F'
  }

  // ----- Syntax

  /** One unit of a string body: an unescaped character, a two-character escape or a \u escape. */
  datatype Piece = Plain(c: char) | Escape(c: char) | CodeUnit(hex: string)

  datatype Json =
    | Literal(text: string)
    | Str(pieces: seq<Piece>)
    | Arr(space: string, items: seq<Item>)
    | Obj(space: string, members: seq<Member>)

  /** An array element with the blanks around it. */
  datatype Item = Item(before: string, value: Json, after: string)

  /** An object member with the blanks around its name, colon and value. */
  datatype Member =
    Member(before: string, name: seq<Piece>, middle: string, inner: string, value: Json, after: string)

  /** A text whose root is an array. */
  datatype Document = Document(lead: string, space: string, items: seq<Item>, trail: string)

  // ----- Well-formedness

  predicate WfPiece(p: Piece) {
    match p
    case Plain(c) => c >= ' ' && c != '"' && c != '\\'
    case Escape(c) => c in "\"\\/bfnrt"
    case CodeUnit(hex) => |hex| == 4 && forall i :: 0 <= i < 4 ==> IsHex(hex[i])
  }

  predicate WfPieces(pieces: seq<Piece>) {
    forall i :: 0 <= i < |pieces| ==> WfPiece(pieces[i])
  }

  predicate Wf(v: Json)
    decreases v, 1
  {
    match v
    case Literal(text) => text != "" && forall i :: 0 <= i < |text| ==> IsLiteralChar(text[i])
    case Str(pieces) => WfPieces(pieces)
    case Arr(space, items) => Blank(space) && WfItems(items)
    case Obj(space, members) => Blank(space) && WfMembers(members)
  }

  predicate WfItems(items: seq<Item>)
    decreases items, 0
  {
    items == [] || (WfItem(items[0]) && WfItems(items[1..]))
  }

  predicate WfItem(item: Item)
    decreases item, 2
  {
    Blank(item.before) && Wf(item.value) && Blank(item.after)
  }

  predicate WfMembers(members: seq<Member>)
    decreases members, 0
  {
    members == [] || (WfMember(members[0]) && WfMembers(members[1..]))
  }

  predicate WfMember(m: Member)
    decreases m, 2
  {
    Blank(m.before) && WfPieces(m.name) && Blank(m.middle) && Blank(m.inner) && Wf(m.value) && Blank(m.after)
  }

  predicate WfDocument(doc: Document) {
    Blank(doc.lead) && Blank(doc.space) && WfItems(doc.items) && Blank(doc.trail)
  }

  // ----- Printing

  function PieceText(p: Piece): string {
    match p
    case Plain(c) => [c]
    case Escape(c) => ['\\', c]
    case CodeUnit(hex) => "\\u" + hex
  }

  function PiecesText(pieces: seq<Piece>): string {
    if pieces == [] then "" else PieceText(pieces[0]) + PiecesText(pieces[1..])
  }

  function StringText(pieces: seq<Piece>): string {
    "\"" + PiecesText(pieces) + "\""
  }

  function Text(v: Json): string
    decreases v, 1
  {
    match v
    case Literal(text) => text
    case Str(pieces) => StringText(pieces)
    case Arr(space, items) => "[" + (if items == [] then space else ItemsText(items)) + "]"
    case Obj(space, members) => "{" + (if members == [] then space else MembersText(members)) + "}"
  }

  /** Elements separated by commas. */
  function ItemsText(items: seq<Item>): string
    decreases items, 0
  {
    if items == [] then ""
    else if |items| == 1 then ItemText(items[0])
    else ItemText(items[0]) + ("," + ItemsText(items[1..]))
  }

  function ItemText(item: Item): string
    decreases item, 2
  {
    item.before + Text(item.value) + item.after
  }

  function MembersText(members: seq<Member>): string
    decreases members, 0
  {
    if members == [] then ""
    else if |members| == 1 then MemberText(members[0])
    else MemberText(members[0]) + ("," + MembersText(members[1..]))
  }

  function MemberText(m: Member): string
    decreases m, 2
  {
    m.before + StringText(m.name) + m.middle + (":" + m.inner) + Text(m.value) + m.after
  }

  function ArrayInner(doc: Document): string {
    if doc.items == [] then doc.space else ItemsText(doc.items)
  }

  function DocumentText(doc: Document): string {
    doc.lead + "[" + ArrayInner(doc) + "]" + doc.trail
  }

  // ----- Layout-free values

  /** A value with all its blanks removed: what a decoder may look at. */
  function Strip(v: Json): Json
    decreases v, 1
  {
    match v
    case Literal(_) => v
    case Str(_) => v
    case Arr(_, items) => Arr("", StripItems(items))
    case Obj(_, members) => Obj("", StripMembers(members))
  }

  function StripItems(items: seq<Item>): seq<Item>
    decreases items, 0
  {
    if items == [] then [] else [Item("", Strip(items[0].value), "")] + StripItems(items[1..])
  }

  function StripMembers(members: seq<Member>): seq<Member>
    decreases members, 0
  {
    if members == [] then []
    else [Member("", members[0].name, "", "", Strip(members[0].value), "")] + StripMembers(members[1..])
  }

  // ----- Indentation

  /** Two blanks after every line feed. */
  function Indent(s: string): string {
    if s == "" then "" else IndentChar(s[0]) + Indent(s[1..])
  }

  function IndentChar(c: char): string {
    if c == '\n' then "\n  " else [c]
  }

  lemma {:induction false} IndentConcat(a: string, b: string)
    ensures Indent(a + b) == Indent(a) + Indent(b)
  {
    if a == "" {
      assert a + b == b;
    } else {
      IndentConcat(a[1..], b);
      assert (a + b)[1..] == a[1..] + b && (a + b)[0] == a[0];
      calc {
        Indent(a + b);
        IndentChar(a[0]) + Indent(a[1..] + b);
        IndentChar(a[0]) + (Indent(a[1..]) + Indent(b));
        (IndentChar(a[0]) + Indent(a[1..])) + Indent(b);
      }
    }
  }

  lemma {:induction false} IndentBlank(s: string)
    requires Blank(s)
    ensures Blank(Indent(s))
  {
    if s == "" {
    } else {
      IndentBlank(s[1..]);
    }
  }

  lemma {:induction false} IndentNoLineFeed(s: string)
    requires '\n' !in s
    ensures Indent(s) == s
  {
    if s == "" {
    } else {
      IndentNoLineFeed(s[1..]);
      assert s == [s[0]] + s[1..];
    }
  }

  /** The same value laid out with its blanks indented. */
  function Reindent(v: Json): Json
    decreases v, 1
  {
    match v
    case Literal(_) => v
    case Str(_) => v
    case Arr(space, items) => Arr(Indent(space), ReindentItems(items))
    case Obj(space, members) => Obj(Indent(space), ReindentMembers(members))
  }

  function ReindentItems(items: seq<Item>): (r: seq<Item>)
    ensures |r| == |items|
    decreases items, 0
  {
    if items == [] then []
    else [Item(Indent(items[0].before), Reindent(items[0].value), Indent(items[0].after))]
         + ReindentItems(items[1..])
  }

  function ReindentMembers(members: seq<Member>): (r: seq<Member>)
    ensures |r| == |members|
    decreases members, 0
  {
    if members == [] then []
    else
      var m := members[0];
      [Member(Indent(m.before), m.name, Indent(m.middle), Indent(m.inner), Reindent(m.value), Indent(m.after))]
      + ReindentMembers(members[1..])
  }

  lemma {:induction false} PiecesHaveNoLineFeed(pieces: seq<Piece>)
    requires WfPieces(pieces)
    ensures '\n' !in PiecesText(pieces) && '\r' !in PiecesText(pieces)
  {
    if pieces == [] {
    } else {
      PiecesHaveNoLineFeed(pieces[1..]);
      assert WfPiece(pieces[0]);
    }
  }

  lemma IndentString(pieces: seq<Piece>)
    requires WfPieces(pieces)
    ensures Indent(StringText(pieces)) == StringText(pieces)
  {
    PiecesHaveNoLineFeed(pieces);
    IndentNoLineFeed(StringText(pieces));
  }

  /** Reindenting a value is indenting its text, keeps it well-formed and does not change what a
      decoder sees. */
  lemma {:induction false} ReindentLaw(v: Json)
    requires Wf(v)
    ensures Text(Reindent(v)) == Indent(Text(v)) && Wf(Reindent(v)) && Strip(Reindent(v)) == Strip(v)
    decreases v, 1
  {
    match v
    case Literal(text) =>
      IndentNoLineFeed(text);
    case Str(pieces) =>
      IndentString(pieces);
    case Arr(space, items) =>
      IndentBlank(space);
      ReindentItemsLaw(items);
      IndentBracketed("[", if items == [] then space else ItemsText(items), "]");
    case Obj(space, members) =>
      IndentBlank(space);
      ReindentMembersLaw(members);
      IndentBracketed("{", if members == [] then space else MembersText(members), "}");
  }

  lemma IndentBracketed(open: string, body: string, close: string)
    requires |open| == 1 && |close| == 1 && open[0] != '\n' && close[0] != '\n'
    ensures Indent(open + body + close) == open + Indent(body) + close
  {
    IndentConcat(open + body, close);
    IndentConcat(open, body);
    IndentNoLineFeed(open);
    IndentNoLineFeed(close);
  }

  lemma {:induction false} ReindentItemsLaw(items: seq<Item>)
    requires WfItems(items)
    ensures ItemsText(ReindentItems(items)) == Indent(ItemsText(items))
    ensures WfItems(ReindentItems(items)) && StripItems(ReindentItems(items)) == StripItems(items)
    decreases items, 0
  {
    if items == [] {
    } else {
      var item, rest := items[0], items[1..];
      ReindentLaw(item.value);
      ReindentItemsLaw(rest);
      IndentBlank(item.before);
      IndentBlank(item.after);
      IndentConcat(item.before + Text(item.value), item.after);
      IndentConcat(item.before, Text(item.value));
      var head := Item(Indent(item.before), Reindent(item.value), Indent(item.after));
      assert ReindentItems(items) == [head] + ReindentItems(rest);
      assert ReindentItems(items)[1..] == ReindentItems(rest);
      assert ItemText(head) == Indent(ItemText(item));
      if |items| > 1 {
        IndentConcat(ItemText(item), "," + ItemsText(rest));
        IndentConcat(",", ItemsText(rest));
        IndentNoLineFeed(",");
      }
    }
  }

  lemma {:induction false} ReindentMembersLaw(members: seq<Member>)
    requires WfMembers(members)
    ensures MembersText(ReindentMembers(members)) == Indent(MembersText(members))
    ensures WfMembers(ReindentMembers(members)) && StripMembers(ReindentMembers(members)) == StripMembers(members)
    decreases members, 0
  {
    if members == [] {
    } else {
      var m, rest := members[0], members[1..];
      ReindentLaw(m.value);
      ReindentMembersLaw(rest);
      IndentMember(m);
      var head :=
        Member(Indent(m.before), m.name, Indent(m.middle), Indent(m.inner), Reindent(m.value), Indent(m.after));
      assert ReindentMembers(members) == [head] + ReindentMembers(rest);
      assert ReindentMembers(members)[1..] == ReindentMembers(rest);
      assert MemberText(head) == Indent(MemberText(m));
      IndentBlank(m.before);
      IndentBlank(m.middle);
      IndentBlank(m.inner);
      IndentBlank(m.after);
      if |members| > 1 {
        IndentConcat(MemberText(m), "," + MembersText(rest));
        IndentConcat(",", MembersText(rest));
        IndentNoLineFeed(",");
      }
    }
  }

  lemma IndentMember(m: Member)
    requires WfMember(m)
    ensures Indent(MemberText(m)) == Indent(m.before) + StringText(m.name) + Indent(m.middle)
      + (":" + Indent(m.inner)) + Indent(Text(m.value)) + Indent(m.after)
  {
    IndentString(m.name);
    IndentNoLineFeed(":");
    IndentConcat(":", m.inner);
    IndentConcat(m.before, StringText(m.name));
    IndentConcat(m.before + StringText(m.name), m.middle);
    IndentConcat(m.before + StringText(m.name) + m.middle, ":" + m.inner);
    IndentConcat(m.before + StringText(m.name) + m.middle + (":" + m.inner), Text(m.value));
    IndentConcat(m.before + StringText(m.name) + m.middle + (":" + m.inner) + Text(m.value), m.after);
  }
}
