/** The hand-written scanner that finds the top-level objects of a JSON array text, and its
    correctness against the concrete syntax of JsonText. */
module Scanner {
  import opened Common
  import opened JsonText

  datatype ScanError =
    | UnbalancedArray | UnbalancedObject | ObjectWithoutStart | UnbalancedSource | NotARootArray

  datatype Scanned = Ok(ranges: seq<(nat, nat)>, closing: nat) | Err(error: ScanError)

  /** The loop's variables, or the error it returned. */
  datatype State =
    | State(ranges: seq<(nat, nat)>, arrayDepth: nat, objectDepth: nat, objectStart: Option<nat>,
            closing: Option<nat>, inString: bool, escaped: bool)
    | Failed(error: ScanError)

  const START := State([], 0, 0, None, None, false, false)

  /** One iteration of the scanner's loop. */
  function Step(s: State, c: char, index: nat): State {
    if s.Failed? then s
    else if s.inString then
      if s.escaped then s.(escaped := false)
      else if c == '\\' then s.(escaped := true)
      else if c == '"' then s.(inString := false)
      else s
    else if c == '"' then s.(inString := true)
    else if c == '[' then s.(arrayDepth := s.arrayDepth + 1)
    else if c == ']' then CloseArray(s, index)
    else if c == '{' then
      s.(objectStart := if s.arrayDepth == 1 && s.objectDepth == 0 then Some(index) else s.objectStart,
         objectDepth := s.objectDepth + 1)
    else if c == '}' then CloseObject(s, index)
    else s
  }

  function CloseArray(s: State, index: nat): State
    requires s.State?
  {
    var closing := if s.arrayDepth == 1 && s.objectDepth == 0 then Some(index) else s.closing;
    if s.arrayDepth == 0 then Failed(UnbalancedArray)
    else s.(closing := closing, arrayDepth := s.arrayDepth - 1)
  }

  function CloseObject(s: State, index: nat): State
    requires s.State?
  {
    if s.objectDepth == 0 then Failed(UnbalancedObject)
    else if s.arrayDepth == 1 && s.objectDepth == 1 then
      if s.objectStart.None? then Failed(ObjectWithoutStart)
      else s.(objectDepth := 0, objectStart := None, ranges := s.ranges + [(s.objectStart.value, index + 1)])
    else s.(objectDepth := s.objectDepth - 1)
  }

  function Run(s: State, text: string, at: nat): State
    decreases |text|
  {
    if text == "" then s else Run(Step(s, text[0], at), text[1..], at + 1)
  }

  function Finish(s: State): Scanned {
    if s.Failed? then Err(s.error)
    else if s.inString || s.arrayDepth != 0 || s.objectDepth != 0 then Err(UnbalancedSource)
    else if s.closing.None? then Err(NotARootArray)
    else Ok(s.ranges, s.closing.value)
  }

  /** What the scanner returns for a text. */
  function Scan(body: string): Scanned {
    Finish(Run(START, body, 0))
  }

  /** The source's loop, one byte at a time with early returns. */
  method TopLevelObjectRanges(body: string) returns (r: Scanned)
    ensures r == Scan(body)
  {
    var ranges: seq<(nat, nat)> := [];
    var arrayDepth, objectDepth: nat := 0, 0;
    var objectStart: Option<nat>, closing: Option<nat> := None, None;
    var inString, escaped := false, false;
    var index := 0;
    while index < |body|
      invariant 0 <= index <= |body|
      invariant Scan(body) == Finish(Run(
        State(ranges, arrayDepth, objectDepth, objectStart, closing, inString, escaped), body[index..], index))
    {
      var c := body[index];
      assert body[index..][0] == c && body[index..][1..] == body[index + 1..];
      if inString {
        if escaped {
          escaped := false;
        } else if c == '\\' {
          escaped := true;
        } else if c == '"' {
          inString := false;
        }
      } else if c == '"' {
        inString := true;
      } else if c == '[' {
        arrayDepth := arrayDepth + 1;
      } else if c == ']' {
        if arrayDepth == 1 && objectDepth == 0 {
          closing := Some(index);
        }
        if arrayDepth == 0 {
          RunFailed(UnbalancedArray, body[index + 1..], index + 1);
          return Err(UnbalancedArray);
        }
        arrayDepth := arrayDepth - 1;
      } else if c == '{' {
        if arrayDepth == 1 && objectDepth == 0 {
          objectStart := Some(index);
        }
        objectDepth := objectDepth + 1;
      } else if c == '}' {
        if objectDepth == 0 {
          RunFailed(UnbalancedObject, body[index + 1..], index + 1);
          return Err(UnbalancedObject);
        }
        objectDepth := objectDepth - 1;
        if arrayDepth == 1 && objectDepth == 0 {
          if objectStart.None? {
            RunFailed(ObjectWithoutStart, body[index + 1..], index + 1);
            return Err(ObjectWithoutStart);
          }
          ranges, objectStart := ranges + [(objectStart.value, index + 1)], None;
        }
      }
      index := index + 1;
    }
    assert body[index..] == "";
    if inString || arrayDepth != 0 || objectDepth != 0 {
      return Err(UnbalancedSource);
    }
    if closing.None? {
      return Err(NotARootArray);
    }
    return Ok(ranges, closing.value);
  }

  lemma {:induction false} RunFailed(e: ScanError, text: string, at: nat)
    ensures Run(Failed(e), text, at) == Failed(e)
    decreases |text|
  {
    if text == "" {
    } else {
      RunFailed(e, text[1..], at + 1);
    }
  }

  // ----- Running over pieces of text

  lemma {:induction false} RunConcat(s: State, a: string, b: string, at: nat)
    ensures Run(s, a + b, at) == Run(Run(s, a, at), b, at + |a|)
    decreases |a|
  {
    if a == "" {
      assert a + b == b;
    } else {
      assert (a + b)[1..] == a[1..] + b;
      RunConcat(Step(s, a[0], at), a[1..], b, at + 1);
    }
  }

  /** Between tokens: no error, not inside a string. */
  ghost predicate Ready(s: State) {
    s.State? && !s.inString && !s.escaped
  }

  /** Deeper than the elements of the root array. */
  ghost predicate Deep(s: State) {
    Ready(s) && s.arrayDepth >= 1 && (s.arrayDepth >= 2 || s.objectDepth >= 1)
  }

  predicate IsStructural(c: char) {
    c == '"' || c == '[' || c == ']' || c == '{' || c == '}'
  }

  lemma {:induction false} RunQuiet(s: State, text: string, at: nat)
    requires Ready(s) && forall i :: 0 <= i < |text| ==> !IsStructural(text[i])
    ensures Run(s, text, at) == s
    decreases |text|
  {
    if text == "" {
    } else {
      RunQuiet(s, text[1..], at + 1);
    }
  }

  lemma {:induction false} RunInside(s: State, text: string, at: nat)
    requires s.State? && s.inString && !s.escaped && forall i :: 0 <= i < |text| ==> text[i] != '"' && text[i] != '\\'
    ensures Run(s, text, at) == s
    decreases |text|
  {
    if text == "" {
    } else {
      RunInside(s, text[1..], at + 1);
    }
  }

  lemma RunPiece(s: State, p: Piece, at: nat)
    requires s.State? && s.inString && !s.escaped && WfPiece(p)
    ensures Run(s, PieceText(p), at) == s
  {
    match p
    case Plain(c) =>
      RunInside(s, [c], at);
    case Escape(c) =>
      assert ['\\', c][1..] == [c] && [c][1..] == "";
      assert Run(s, ['\\', c], at) == Run(s.(escaped := true), [c], at + 1);
      RunOne(s.(escaped := true), c, at + 1);
    case CodeUnit(hex) =>
      assert ("\\u" + hex)[1..] == "u" + hex && ("u" + hex)[1..] == hex;
      assert Run(s, "\\u" + hex, at) == Run(s.(escaped := true), "u" + hex, at + 1);
      assert Run(s.(escaped := true), "u" + hex, at + 1) == Run(s, hex, at + 2);
      RunInside(s, hex, at + 2);
  }

  lemma {:induction false} RunPieces(s: State, pieces: seq<Piece>, at: nat)
    requires s.State? && s.inString && !s.escaped && WfPieces(pieces)
    ensures Run(s, PiecesText(pieces), at) == s
    decreases |pieces|
  {
    if pieces == [] {
    } else {
      var head := PieceText(pieces[0]);
      RunPiece(s, pieces[0], at);
      RunConcat(s, head, PiecesText(pieces[1..]), at);
      RunPieces(s, pieces[1..], at + |head|);
    }
  }

  /** A string token, whatever escaped quotes, backslashes or brackets it holds, changes nothing. */
  lemma RunString(s: State, pieces: seq<Piece>, at: nat)
    requires Ready(s) && WfPieces(pieces)
    ensures Run(s, StringText(pieces), at) == s
  {
    var body := PiecesText(pieces);
    var inside := s.(inString := true);
    assert StringText(pieces)[1..] == body + "\"";
    RunPieces(inside, pieces, at + 1);
    RunConcat(inside, body, "\"", at + 1);
    RunOne(inside, '"', at + 1 + |body|);
  }

  lemma RunOne(s: State, c: char, at: nat)
    ensures Run(s, [c], at) == Step(s, c, at)
  {
    assert [c][1..] == "";
  }

  /** Open bracket, a body that leaves the opened state alone, close bracket. */
  lemma RunBracketed(s: State, open: char, inner: State, body: string, close: char, at: nat)
    requires Step(s, open, at) == inner && Run(inner, body, at + 1) == inner
    ensures Run(s, [open] + body + [close], at) == Step(inner, close, at + 1 + |body|)
  {
    RunThree(s, [open], body, [close], at);
    RunOne(s, open, at);
    RunOne(inner, close, at + 1 + |body|);
  }

  // ----- Nested values are invisible

  lemma {:induction false} RunDeep(s: State, v: Json, at: nat)
    requires Deep(s) && Wf(v)
    ensures Run(s, Text(v), at) == s
    decreases v, 1
  {
    match v
    case Literal(text) =>
      RunQuiet(s, text, at);
    case Str(pieces) =>
      RunString(s, pieces, at);
    case Arr(space, items) =>
      var inner := s.(arrayDepth := s.arrayDepth + 1);
      if items == [] {
        RunQuiet(inner, space, at + 1);
      } else {
        RunDeepItems(inner, items, at + 1);
      }
      RunArray(s, space, items, at);
    case Obj(space, members) =>
      var inner := s.(objectDepth := s.objectDepth + 1);
      if members == [] {
        RunQuiet(inner, space, at + 1);
      } else {
        RunDeepMembers(inner, members, at + 1);
      }
      RunObject(s, space, members, at);
  }

  lemma {:induction false} RunArray(s: State, space: string, items: seq<Item>, at: nat)
    requires Deep(s)
    requires var inner := s.(arrayDepth := s.arrayDepth + 1);
      Run(inner, if items == [] then space else ItemsText(items), at + 1) == inner
    ensures Run(s, Text(Arr(space, items)), at) == s
  {
    var inner := s.(arrayDepth := s.arrayDepth + 1);
    RunBracketed(s, '[', inner, if items == [] then space else ItemsText(items), ']', at);
  }

  lemma {:induction false} RunObject(s: State, space: string, members: seq<Member>, at: nat)
    requires Deep(s)
    requires var inner := s.(objectDepth := s.objectDepth + 1);
      Run(inner, if members == [] then space else MembersText(members), at + 1) == inner
    ensures Run(s, Text(Obj(space, members)), at) == s
  {
    var inner := s.(objectDepth := s.objectDepth + 1);
    RunBracketed(s, '{', inner, if members == [] then space else MembersText(members), '}', at);
  }

  lemma {:induction false} RunDeepItems(s: State, items: seq<Item>, at: nat)
    requires Deep(s) && WfItems(items)
    ensures Run(s, ItemsText(items), at) == s
    decreases items, 0
  {
    if items == [] {
    } else {
      var item, head := items[0], ItemText(items[0]);
      RunQuiet(s, item.before, at);
      RunDeep(s, item.value, at + |item.before|);
      RunQuiet(s, item.after, at + |item.before| + |Text(item.value)|);
      RunAround(s, item.before, Text(item.value), item.after, at, s);
      if |items| > 1 {
        RunSeparated(s, head, ItemsText(items[1..]), at);
        RunDeepItems(s, items[1..], at + |head| + 1);
      }
    }
  }

  lemma RunThree(s: State, a: string, b: string, c: string, at: nat)
    ensures Run(s, a + b + c, at) == Run(Run(Run(s, a, at), b, at + |a|), c, at + |a| + |b|)
  {
    RunConcat(s, a + b, c, at);
    RunConcat(s, a, b, at);
  }

  lemma RunSeparated(s: State, a: string, b: string, at: nat)
    requires Ready(Run(s, a, at))
    ensures Run(s, a + ("," + b), at) == Run(Run(s, a, at), b, at + |a| + 1)
  {
    RunConcat(s, a, "," + b, at);
    RunConcat(Run(s, a, at), ",", b, at + |a|);
    RunQuiet(Run(s, a, at), ",", at + |a|);
  }

  lemma {:induction false} RunDeepMembers(s: State, members: seq<Member>, at: nat)
    requires Deep(s) && WfMembers(members)
    ensures Run(s, MembersText(members), at) == s
    decreases members, 0
  {
    if members == [] {
    } else {
      var head := MemberText(members[0]);
      RunDeepMember(s, members[0], at);
      if |members| > 1 {
        RunSeparated(s, head, MembersText(members[1..]), at);
        RunDeepMembers(s, members[1..], at + |head| + 1);
      }
    }
  }

  lemma {:induction false} RunDeepMember(s: State, m: Member, at: nat)
    requires Deep(s) && WfMember(m)
    ensures Run(s, MemberText(m), at) == s
    decreases m, 2
  {
    var name := m.before + StringText(m.name) + m.middle + (":" + m.inner);
    RunMemberName(s, m, at);
    RunDeep(s, m.value, at + |name|);
    RunQuiet(s, m.after, at + |name| + |Text(m.value)|);
    RunAround(s, name, Text(m.value), m.after, at, s);
  }

  lemma RunMemberName(s: State, m: Member, at: nat)
    requires Ready(s) && WfMember(m)
    ensures Run(s, m.before + StringText(m.name) + m.middle + (":" + m.inner), at) == s
  {
    var token := StringText(m.name);
    RunThree(s, m.before, token, m.middle, at);
    RunQuiet(s, m.before, at);
    RunString(s, m.name, at + |m.before|);
    RunQuiet(s, m.middle, at + |m.before| + |token|);
    RunConcat(s, m.before + token + m.middle, ":" + m.inner, at);
    RunQuiet(s, ":" + m.inner, at + |m.before + token + m.middle|);
  }

  // ----- The elements of the root array

  /** Inside the root array, between elements. */
  ghost predicate AtTop(s: State) {
    Ready(s) && s.arrayDepth == 1 && s.objectDepth == 0 && s.objectStart.None?
  }

  /** Spans of the elements that are objects, for elements printed from offset `at` on. */
  function Spans(items: seq<Item>, at: nat): seq<(nat, nat)>
    decreases |items|
  {
    if items == [] then []
    else
      (if items[0].value.Obj? then [Span(items[0], at)] else [])
      + Spans(items[1..], at + |ItemText(items[0])| + 1)
  }

  /** Where the value of an element printed at offset `at` starts and ends. */
  function Span(item: Item, at: nat): (nat, nat) {
    (at + |item.before|, at + |item.before| + |Text(item.value)|)
  }

  lemma RunTopValue(s: State, v: Json, at: nat)
    requires AtTop(s) && Wf(v)
    ensures Run(s, Text(v), at)
      == s.(ranges := s.ranges + (if v.Obj? then [(at, at + |Text(v)|)] else []))
  {
    match v
    case Literal(text) =>
      RunQuiet(s, text, at);
    case Str(pieces) =>
      RunString(s, pieces, at);
    case Arr(space, items) =>
      var inner := s.(arrayDepth := 2);
      if items == [] {
        RunQuiet(inner, space, at + 1);
      } else {
        RunDeepItems(inner, items, at + 1);
      }
      RunBracketed(s, '[', inner, if items == [] then space else ItemsText(items), ']', at);
    case Obj(space, members) =>
      var inner := s.(objectDepth := 1, objectStart := Some(at));
      if members == [] {
        RunQuiet(inner, space, at + 1);
      } else {
        RunDeepMembers(inner, members, at + 1);
      }
      RunBracketed(s, '{', inner, if members == [] then space else MembersText(members), '}', at);
  }

  lemma RunTopItem(s: State, item: Item, at: nat)
    requires AtTop(s) && WfItem(item)
    ensures Run(s, ItemText(item), at)
      == s.(ranges := s.ranges + (if item.value.Obj? then [Span(item, at)] else []))
  {
    var start := at + |item.before|;
    var t := s.(ranges := s.ranges + (if item.value.Obj? then [Span(item, at)] else []));
    RunQuiet(s, item.before, at);
    RunTopValue(s, item.value, start);
    RunQuiet(t, item.after, start + |Text(item.value)|);
    RunAround(s, item.before, Text(item.value), item.after, at, t);
  }

  /** Only the middle of three parts changes the state. */
  lemma RunAround(s: State, a: string, b: string, c: string, at: nat, t: State)
    requires Run(s, a, at) == s && Run(s, b, at + |a|) == t && Run(t, c, at + |a| + |b|) == t
    ensures Run(s, a + b + c, at) == t
  {
    RunThree(s, a, b, c, at);
  }

  lemma {:induction false} RunTopItems(s: State, items: seq<Item>, at: nat)
    requires AtTop(s) && WfItems(items)
    ensures Run(s, ItemsText(items), at) == s.(ranges := s.ranges + Spans(items, at))
    decreases |items|
  {
    if items == [] {
    } else {
      var head, rest := ItemText(items[0]), items[1..];
      var here := if items[0].value.Obj? then [Span(items[0], at)] else [];
      var s1 := Run(s, head, at);
      RunTopItem(s, items[0], at);
      assert s1 == s.(ranges := s.ranges + here);
      if |items| > 1 {
        RunSeparated(s, head, ItemsText(rest), at);
        RunTopItems(s1, rest, at + |head| + 1);
        Associate(s.ranges, here, Spans(rest, at + |head| + 1));
      } else {
        assert rest == [] && Spans(items, at) == here;
      }
    }
  }

  /** Offset of the bracket that closes the root array. */
  function ClosingAt(doc: Document): nat {
    |doc.lead| + 1 + |ArrayInner(doc)|
  }

  /** For every layout of every JSON array the scanner succeeds and returns exactly the spans of the
      elements that are objects, in order, and the offset of the root's closing bracket. */
  lemma ScanCorrect(doc: Document)
    requires WfDocument(doc)
    ensures Scan(DocumentText(doc)) == Ok(Spans(doc.items, |doc.lead| + 1), ClosingAt(doc))
  {
    var open, body := |doc.lead|, "[" + ArrayInner(doc) + "]";
    var closed := START.(ranges := Spans(doc.items, open + 1), closing := Some(ClosingAt(doc)));
    assert DocumentText(doc) == doc.lead + body + doc.trail;
    RunQuiet(START, doc.lead, 0);
    RunRoot(doc);
    RunQuiet(closed, doc.trail, open + |body|);
    RunAround(START, doc.lead, body, doc.trail, 0, closed);
  }

  lemma RunInner(doc: Document, top: State)
    requires WfDocument(doc) && top == START.(arrayDepth := 1)
    ensures Run(top, ArrayInner(doc), |doc.lead| + 1) == top.(ranges := Spans(doc.items, |doc.lead| + 1))
  {
    if doc.items == [] {
      RunQuiet(top, doc.space, |doc.lead| + 1);
    } else {
      RunTopItems(top, doc.items, |doc.lead| + 1);
    }
  }

  /** The root array alone. */
  lemma RunRoot(doc: Document)
    requires WfDocument(doc)
    ensures Run(START, "[" + ArrayInner(doc) + "]", |doc.lead|)
      == START.(ranges := Spans(doc.items, |doc.lead| + 1), closing := Some(ClosingAt(doc)))
  {
    var open, top := |doc.lead|, START.(arrayDepth := 1);
    RunThree(START, "[", ArrayInner(doc), "]", open);
    RunOne(START, '[', open);
    RunInner(doc, top);
    RunOne(top.(ranges := Spans(doc.items, open + 1)), ']', ClosingAt(doc));
  }

  // ----- The spans cut out the elements' texts

  /** Texts of the elements that are objects. */
  function ObjectTexts(items: seq<Item>): seq<string> {
    if items == [] then []
    else (if items[0].value.Obj? then [Text(items[0].value)] else []) + ObjectTexts(items[1..])
  }

  /** The slices of a text that a list of spans names. */
  function Slices(body: string, ranges: seq<(nat, nat)>): seq<string>
    requires forall r :: r in ranges ==> r.0 <= r.1 <= |body|
  {
    if ranges == [] then [] else [body[ranges[0].0..ranges[0].1]] + Slices(body, ranges[1..])
  }

  lemma {:induction false} SpansCut(body: string, items: seq<Item>, at: nat)
    requires at <= |body| && ItemsText(items) <= body[at..]
    ensures forall r :: r in Spans(items, at) ==> r.0 <= r.1 <= |body|
    ensures Slices(body, Spans(items, at)) == ObjectTexts(items)
    decreases |items|
  {
    if items == [] {
    } else {
      ItemsCut(body, items, at);
      SpanCuts(body, items[0], at);
      if |items| > 1 {
        SpansCut(body, items[1..], at + |ItemText(items[0])| + 1);
      }
      SpansCutCons(body, items, at);
    }
  }

  lemma SpansCutCons(body: string, items: seq<Item>, at: nat)
    requires items != []
    requires var span := Span(items[0], at);
      span.1 <= |body| && body[span.0..span.1] == Text(items[0].value)
    requires var tail := Spans(items[1..], at + |ItemText(items[0])| + 1);
      (forall r :: r in tail ==> r.0 <= r.1 <= |body|) && Slices(body, tail) == ObjectTexts(items[1..])
    ensures forall r :: r in Spans(items, at) ==> r.0 <= r.1 <= |body|
    ensures Slices(body, Spans(items, at)) == ObjectTexts(items)
  {
    var tail := Spans(items[1..], at + |ItemText(items[0])| + 1);
    if items[0].value.Obj? {
      SlicesCons(body, Span(items[0], at), tail);
    } else {
      assert [] + tail == tail;
    }
  }

  /** The first element's text is here, and that of the others after its comma. */
  lemma ItemsCut(body: string, items: seq<Item>, at: nat)
    requires at <= |body| && items != [] && ItemsText(items) <= body[at..]
    ensures ItemText(items[0]) <= body[at..]
    ensures var next := at + |ItemText(items[0])| + 1;
      |items| > 1 ==> next <= |body| && ItemsText(items[1..]) <= body[next..]
  {
    if |items| > 1 {
      var head := ItemText(items[0]);
      assert ItemsText(items)[|head| + 1..] == ItemsText(items[1..]);
      assert body[at + |head| + 1..] == body[at..][|head| + 1..];
    }
  }

  lemma SlicesCons(body: string, range: (nat, nat), ranges: seq<(nat, nat)>)
    requires range.0 <= range.1 <= |body| && forall r :: r in ranges ==> r.0 <= r.1 <= |body|
    ensures forall r :: r in [range] + ranges ==> r.0 <= r.1 <= |body|
    ensures Slices(body, [range] + ranges) == [body[range.0..range.1]] + Slices(body, ranges)
  {
    assert ([range] + ranges)[1..] == ranges;
  }

  lemma SpanCuts(body: string, item: Item, at: nat)
    requires at <= |body| && ItemText(item) <= body[at..]
    ensures Span(item, at).1 <= |body| && body[Span(item, at).0..Span(item, at).1] == Text(item.value)
  {
    var head, span := ItemText(item), Span(item, at);
    assert head[|item.before|..|item.before| + |Text(item.value)|] == Text(item.value);
    assert body[at..][..|head|] == head;
  }
}
