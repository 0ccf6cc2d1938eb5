/** In-place upsert of one entry into the text of the device database. File access is outside the
    model; the JSON decoder and the validity test of entries are parameters. */
module Upsert {
  import opened Common
  import opened JsonText
  import JsonUnique
  import opened Scanner

  datatype MatterIds = MatterIds(vendorId: Option<nat>, productId: Option<nat>)

  /** The identity of an entry; everything else it holds is `rest`. */
  datatype DeviceEntry = DeviceEntry(manufacturer: string, model: string, matter: Option<MatterIds>, rest: string)

  datatype Action = Inserted | Replaced

  datatype Update = Update(action: Action, entryIndex: nat, totalEntries: nat, body: string)

  datatype UpdateError =
    | SyntheticEvidence | Unparsable | ScanFailed(cause: ScanError) | CountMismatch | Ambiguous
    | UpdatedUnparsable | InvalidCorrections

  datatype Outcome = Done(update: Update) | Refused(error: UpdateError)

  /** Decodes a whole text into entries, or nothing. */
  type Parser = string -> Option<seq<DeviceEntry>>

  // ----- Identity

  function LowerAscii(c: char): char {
    if 'A' <= c <= 'Z' then (c as int + 32) as char else c
  }

  predicate EqIgnoreAsciiCase(a: string, b: string) {
    |a| == |b| && forall i :: 0 <= i < |a| ==> LowerAscii(a[i]) == LowerAscii(b[i])
  }

  predicate SameDevice(a: DeviceEntry, b: DeviceEntry) {
    || (&& a.matter.Some? && b.matter.Some?
        && a.matter.value.vendorId.Some? && a.matter.value.productId.Some?
        && a.matter.value == b.matter.value)
    || (EqIgnoreAsciiCase(a.manufacturer, b.manufacturer) && EqIgnoreAsciiCase(a.model, b.model))
  }

  /** Identity is reflexive and symmetric. It is not transitive: two entries may match a third one,
      one by its Matter ids and one by its names. */
  lemma SameDeviceLaws(a: DeviceEntry, b: DeviceEntry)
    ensures SameDevice(a, a)
    ensures SameDevice(a, b) <==> SameDevice(b, a)
    ensures exists x, y, z :: SameDevice(x, y) && SameDevice(y, z) && !SameDevice(x, z)
  {
    var ids := Some(MatterIds(Some(1), Some(1)));
    var x, y, z := DeviceEntry("a", "m", ids, ""), DeviceEntry("b", "m", ids, ""), DeviceEntry("b", "m", None, "");
    assert LowerAscii("a"[0]) != LowerAscii("b"[0]);
    assert SameDevice(x, y) && SameDevice(y, z) && !SameDevice(x, z);
  }

  /** A capital letter of the alphabet and the small letter in the same place. */
  predicate SmallOf(capital: char, small: char) {
    'A' <= capital <= 'Z' && 'a' <= small <= 'z' && capital as int - 'A' as int == small as int - 'a' as int
  }

  predicate SameLetter(a: char, b: char) {
    a == b || SmallOf(a, b) || SmallOf(b, a)
  }

  /** Names that agree letter for letter, up to capitals. */
  predicate SameName(a: string, b: string) {
    |a| == |b| && forall i :: 0 <= i < |a| ==> SameLetter(a[i], b[i])
  }

  /** Both entries have the same two Matter ids. */
  ghost predicate SameIds(a: DeviceEntry, b: DeviceEntry) {
    exists vendor, product :: a.matter == b.matter == Some(MatterIds(Some(vendor), Some(product)))
  }

  /** What makes two entries the same device: equal and fully present Matter ids, whatever the names, or
      names that agree up to the case of their ASCII letters. */
  ghost predicate Twins(a: DeviceEntry, b: DeviceEntry) {
    SameIds(a, b) || (SameName(a.manufacturer, b.manufacturer) && SameName(a.model, b.model))
  }

  lemma NamesAgree(a: string, b: string)
    ensures EqIgnoreAsciiCase(a, b) <==> SameName(a, b)
  {
    if |a| == |b| {
      forall i | 0 <= i < |a| ensures LowerAscii(a[i]) == LowerAscii(b[i]) <==> SameLetter(a[i], b[i]) {
        LettersAgree(a[i], b[i]);
      }
    }
  }

  lemma LettersAgree(a: char, b: char)
    ensures LowerAscii(a) == LowerAscii(b) <==> SameLetter(a, b)
  {
    LowerIsSmall(a);
    LowerIsSmall(b);
  }

  lemma LowerIsSmall(c: char)
    ensures if 'A' <= c <= 'Z' then SmallOf(c, LowerAscii(c)) else LowerAscii(c) == c
  {
  }

  /** The identity test is exactly that. */
  lemma SameDeviceIff(a: DeviceEntry, b: DeviceEntry)
    ensures SameDevice(a, b) <==> Twins(a, b)
  {
    NamesAgree(a.manufacturer, b.manufacturer);
    NamesAgree(a.model, b.model);
    if SameDevice(a, b) && a.matter.Some? && a.matter == b.matter
      && a.matter.value.vendorId.Some? && a.matter.value.productId.Some?
    {
      assert a.matter == Some(MatterIds(Some(a.matter.value.vendorId.value), Some(a.matter.value.productId.value)));
    }
  }

  /** Indices of the entries that match the candidate. */
  function MatchingIndices(entries: seq<DeviceEntry>, candidate: DeviceEntry): (r: seq<nat>)
    ensures forall k: nat :: k in r <==> k < |entries| && SameDevice(entries[k], candidate)
    ensures forall i, j :: 0 <= i < j < |r| ==> r[i] < r[j]
  {
    if entries == [] then []
    else
      var last := |entries| - 1;
      var r := MatchingIndices(entries[..last], candidate);
      assert forall k: nat :: k < last ==> entries[..last][k] == entries[k];
      assert forall i :: 0 <= i < |r| ==> r[i] in r;
      if SameDevice(entries[last], candidate) then r + [last] else r
  }

  // ----- Lines

  /** Position of the first line feed, or the length. */
  function LineEnd(s: string): (r: nat)
    ensures r <= |s| && '\n' !in s[..r] && (r < |s| ==> s[r] == '\n')
  {
    if s == "" || s[0] == '\n' then 0
    else
      var r := LineEnd(s[1..]) + 1;
      assert s[..r] == [s[0]] + s[1..][..r - 1];
      r
  }

  function DropCarriageReturn(s: string): string {
    if s != "" && s[|s| - 1] == '\r' then s[..|s| - 1] else s
  }

  /** Lines of a text: a carriage return before the line feed is dropped, and so is a last empty line. */
  function Lines(s: string): seq<string>
    decreases |s|
  {
    if s == "" then []
    else
      var k := LineEnd(s);
      if k == |s| then [s] else [DropCarriageReturn(s[..k])] + Lines(s[k + 1..])
  }

  /** Lines end at a line feed, alone or after a carriage return; without one the rest is the last line. */
  lemma {:induction false} LinesLaw(line: string, rest: string)
    requires '\n' !in line
    ensures Lines(line) == if line == "" then [] else [line]
    ensures Lines(line + "\r\n" + rest) == [line] + Lines(rest)
    ensures line == "" || line[|line| - 1] != '\r' ==> Lines(line + "\n" + rest) == [line] + Lines(rest)
  {
    LineEndAt(line, "");
    assert line + "" == line;
    FirstLine(line + "\r", rest);
    assert line + "\r" + "\n" + rest == line + "\r\n" + rest;
    assert (line + "\r")[..|line|] == line;
    FirstLine(line, rest);
  }

  lemma {:induction false} FirstLine(line: string, rest: string)
    requires '\n' !in line
    ensures Lines(line + "\n" + rest) == [DropCarriageReturn(line)] + Lines(rest)
  {
    var s := line + "\n" + rest;
    assert s == line + ("\n" + rest);
    LineEndAt(line, "\n" + rest);
    assert s[..|line|] == line && s[|line| + 1..] == rest;
  }

  lemma {:induction false} LineEndAt(line: string, rest: string)
    requires '\n' !in line && (rest == "" || rest[0] == '\n')
    ensures LineEnd(line + rest) == |line|
  {
    if line == "" {
    } else {
      assert line == [line[0]] + line[1..];
      assert (line + rest)[1..] == line[1..] + rest;
      LineEndAt(line[1..], rest);
    }
  }

  /** Lines glued with a separator in front of all but the first. */
  function Glue(lines: seq<string>, separator: string): string {
    if lines == [] then ""
    else if |lines| == 1 then lines[0]
    else Glue(lines[..|lines| - 1], separator) + separator + lines[|lines| - 1]
  }

  /** The source's loop over the remaining lines. */
  method IndentAfterFirstLine(value: string, indent: string) returns (output: string)
    ensures output == Glue(Lines(value), "\n" + indent)
  {
    var lines := Lines(value);
    output := if lines == [] then "" else lines[0];
    var i := 1;
    while i < |lines|
      invariant 1 <= i && (i <= |lines| || lines == [])
      invariant lines != [] ==> output == Glue(lines[..i], "\n" + indent)
      invariant lines == [] ==> output == ""
    {
      output := output + ['\n'] + indent + lines[i];
      assert lines[..i + 1][..i] == lines[..i];
      assert output == Glue(lines[..i], "\n" + indent) + ("\n" + indent) + lines[i];
      i := i + 1;
    }
    assert lines != [] ==> lines[..i] == lines;
  }

  function IndentAfterFirst(value: string): string {
    Glue(Lines(value), "\n  ")
  }

  function IndentEvery(value: string): string {
    Glue(Indented(Lines(value)), "\n")
  }

  function Indented(lines: seq<string>): (r: seq<string>)
    ensures |r| == |lines|
  {
    seq(|lines|, i requires 0 <= i < |lines| => "  " + lines[i])
  }

  lemma {:induction false} GlueFront(line: string, lines: seq<string>, separator: string)
    requires lines != []
    ensures Glue([line] + lines, separator) == line + separator + Glue(lines, separator)
  {
    var all := [line] + lines;
    assert all[|all| - 1] == lines[|lines| - 1];
    if |lines| == 1 {
      assert all[..1] == [line];
    } else {
      assert all[..|all| - 1] == [line] + lines[..|lines| - 1];
      GlueFront(line, lines[..|lines| - 1], separator);
    }
  }

  /** The inserted form is the indent followed by the replacement form. */
  lemma {:induction false} IndentedGlue(lines: seq<string>)
    requires lines != []
    ensures Glue(Indented(lines), "\n") == "  " + Glue(lines, "\n  ")
  {
    if |lines| == 1 {
    } else {
      var init := lines[..|lines| - 1];
      IndentedGlue(init);
      assert Indented(lines)[..|lines| - 1] == Indented(init);
      assert "\n" + ("  " + lines[|lines| - 1]) == "\n  " + lines[|lines| - 1];
    }
  }

  /** On a text without carriage returns that does not end in a line feed, indenting after the
      first line puts two blanks after every line feed. */
  lemma {:induction false} LinesIndent(s: string)
    requires s != "" && '\r' !in s && s[|s| - 1] != '\n'
    ensures Lines(s) != [] && Glue(Lines(s), "\n  ") == Indent(s)
    decreases |s|
  {
    var k := LineEnd(s);
    if k == |s| {
      assert s[..k] == s;
      IndentNoLineFeed(s);
    } else {
      var line, rest := s[..k], s[k + 1..];
      assert rest[|rest| - 1] == s[|s| - 1];
      assert '\r' !in rest;
      LinesIndent(rest);
      assert DropCarriageReturn(line) == line;
      assert Lines(s) == [line] + Lines(rest);
      GlueFront(line, Lines(rest), "\n  ");
      IndentAtLineFeed(s, k);
    }
  }

  lemma {:induction false} IndentAtLineFeed(s: string, k: nat)
    requires k < |s| && s[k] == '\n' && '\n' !in s[..k]
    ensures Indent(s) == s[..k] + "\n  " + Indent(s[k + 1..])
  {
    if k == 0 {
    } else {
      var rest := s[1..];
      assert rest[..k - 1] == s[..k][1..] && rest[k..] == s[k + 1..];
      IndentAtLineFeed(rest, k - 1);
      assert s[0] in s[..k];
      assert s[..k] == [s[0]] + rest[..k - 1];
      IndentHead(s[0], rest, rest[..k - 1], Indent(s[k + 1..]));
    }
  }

  lemma IndentHead(c: char, rest: string, before: string, after: string)
    requires c != '\n' && Indent(rest) == before + "\n  " + after
    ensures Indent([c] + rest) == ([c] + before) + "\n  " + after
  {
    assert ([c] + rest)[1..] == rest;
  }

  // ----- Trimming

  /** White_Space of Unicode, as str::trim_end uses it. */
  predicate IsWhiteSpace(c: char) {
    var n := c as int;
    9 <= n <= 13 || n == 32 || n == 0x85 || n == 0xA0 || n == 0x1680 || 0x2000 <= n <= 0x200A
    || n == 0x2028 || n == 0x2029 || n == 0x202F || n == 0x205F || n == 0x3000
  }

  lemma {:induction false} TrimBlanks(s: string, blanks: string)
    requires Blank(blanks) && s != "" && !IsWhiteSpace(s[|s| - 1])
    ensures TrimEnd(s + blanks, IsWhiteSpace) == s
    decreases |blanks|
  {
    if blanks == "" {
      assert s + blanks == s;
    } else {
      var init := blanks[..|blanks| - 1];
      TrimBlanks(s, init);
      assert (s + blanks)[..|s + blanks| - 1] == s + init;
      assert IsBlank(blanks[|blanks| - 1]);
    }
  }

  // ----- The update

  /** update_rhythm_devices_database between reading and writing the file. */
  function UpdateDatabase(
      synthetic: bool, body: string, candidate: DeviceEntry, entryJson: string,
      parse: Parser, valid: DeviceEntry -> bool): Outcome
  {
    if synthetic then Refused(SyntheticEvidence)
    else
      var parsed := parse(body);
      if parsed.None? then Refused(Unparsable)
      else
        var entries, scanned := parsed.value, Scan(body);
        if scanned.Err? then Refused(ScanFailed(scanned.error))
        else if |scanned.ranges| != |entries| then Refused(CountMismatch)
        else
          var matching := MatchingIndices(entries, candidate);
          if |matching| > 1 then Refused(Ambiguous)
          else
            var inserting := matching == [];
            var index := Target(entries, candidate);
            var updated :=
              if inserting then InsertText(body, scanned.closing, entryJson, entries == [])
              else ReplaceText(body, scanned.ranges[index], entryJson);
            var reparsed := parse(updated);
            if reparsed.None? then Refused(UpdatedUnparsable)
            else if exists e :: e in reparsed.value && !valid(e) then Refused(InvalidCorrections)
            else Done(Update(if inserting then Inserted else Replaced, index, |reparsed.value|, updated))
  }

  /** Slices as the source takes them; out-of-range offsets, which never occur, give the whole text. */
  function ReplaceText(body: string, range: (nat, nat), entryJson: string): string {
    if range.0 <= |body| && range.1 <= |body| then body[..range.0] + IndentAfterFirst(entryJson) + body[range.1..]
    else body
  }

  function InsertText(body: string, closing: nat, entryJson: string, empty: bool): string {
    if closing > |body| then body
    else
      var point := |TrimEnd(body[..closing], IsWhiteSpace)|;
      if point > |body| then body
      else body[..point] + (if empty then "\n" else ",\n") + IndentEvery(entryJson) + body[point..]
  }

  // ----- Assumptions about the decoder and the serializer

  /** Decoded elements of an array, if each decodes. */
  function DecodeAll(items: seq<Item>, decode: Json -> Option<DeviceEntry>): (r: Option<seq<DeviceEntry>>)
    ensures r.Some? ==> |r.value| == |items|
  {
    if items == [] then Some([])
    else
      var head, rest := decode(Strip(items[0].value)), DecodeAll(items[1..], decode);
      if head.None? || rest.None? then None else Some([head.value] + rest.value)
  }

  /** A text of an array, in some layout. */
  ghost predicate IsDocumentText(body: string) {
    exists doc :: WfDocument(doc) && DocumentText(doc) == body
  }

  /** The decoder accepts only texts of arrays; it looks at their elements and not at their blanks. */
  ghost predicate ParsesDocuments(parse: Parser, decode: Json -> Option<DeviceEntry>) {
    && (forall doc: Document :: WfDocument(doc) ==> parse(DocumentText(doc)) == DecodeAll(doc.items, decode))
    && forall body :: parse(body).Some? ==> IsDocumentText(body)
  }

  lemma {:induction false} DecodesStripped(a: seq<Item>, b: seq<Item>, decode: Json -> Option<DeviceEntry>)
    requires StripItems(a) == StripItems(b)
    ensures DecodeAll(a, decode) == DecodeAll(b, decode)
  {
    if a == [] {
    } else {
      assert StripItems(a)[0] == Item("", JsonText.Strip(a[0].value), "");
      assert StripItems(b)[0] == Item("", JsonText.Strip(b[0].value), "");
      assert StripItems(a)[1..] == StripItems(a[1..]) && StripItems(b)[1..] == StripItems(b[1..]);
      DecodesStripped(a[1..], b[1..], decode);
    }
  }

  /** A decoder of whole texts for any decoder of elements. */
  ghost function ParserFor(decode: Json -> Option<DeviceEntry>): Parser {
    text =>
      if IsDocumentText(text) then
        var doc :| WfDocument(doc) && DocumentText(doc) == text;
        DecodeAll(doc.items, decode)
      else None
  }

  /** The assumption can be met, whatever the decoder of elements: a text has one reading. */
  lemma {:induction false} DecodersExist(decode: Json -> Option<DeviceEntry>)
    ensures ParsesDocuments(ParserFor(decode), decode)
  {
    forall doc: Document | WfDocument(doc)
      ensures ParserFor(decode)(DocumentText(doc)) == DecodeAll(doc.items, decode)
    {
      var text := DocumentText(doc);
      var read :| WfDocument(read) && DocumentText(read) == text
        && ParserFor(decode)(text) == DecodeAll(read.items, decode);
      JsonUnique.DocumentDetermines(doc, read);
      DecodesStripped(doc.items, read.items, decode);
    }
  }

  /** The serializer prints the candidate as an object that decodes to it, without carriage returns. */
  ghost predicate Prints(json: Json, candidate: DeviceEntry, decode: Json -> Option<DeviceEntry>) {
    json.Obj? && Wf(json) && '\r' !in Text(json) && decode(Strip(json)) == Some(candidate)
  }

  // ----- The spliced document

  /** All elements are objects: what the count comparison establishes. */
  predicate AllObjects(items: seq<Item>) {
    forall i :: 0 <= i < |items| ==> items[i].value.Obj?
  }

  function ReplaceItem(doc: Document, k: nat, v: Json): Document
    requires k < |doc.items|
  {
    doc.(items := doc.items[k := doc.items[k].(value := v)])
  }

  /** The new element takes over the blanks before the closing bracket. */
  function AppendItem(doc: Document, v: Json): Document {
    if doc.items == [] then doc.(items := [Item("\n  ", v, doc.space)])
    else
      var n := |doc.items| - 1;
      var last := doc.items[n];
      doc.(items := doc.items[..n] + [last.(after := ""), Item("\n  ", v, last.after)])
  }

  lemma {:induction false} WfItemsAt(items: seq<Item>)
    ensures WfItems(items) <==> forall i :: 0 <= i < |items| ==> WfItem(items[i])
    decreases |items|
  {
    if items == [] {
    } else {
      WfItemsAt(items[1..]);
      assert items == [items[0]] + items[1..];
    }
  }

  lemma {:induction false} SpansOfObjects(items: seq<Item>, at: nat)
    ensures |Spans(items, at)| <= |items|
    ensures |Spans(items, at)| == |items| <==> AllObjects(items)
    decreases |items|
  {
    if items == [] {
    } else {
      SpansOfObjects(items[1..], at + |ItemText(items[0])| + 1);
      assert items == [items[0]] + items[1..];
    }
  }

  /** Text of the elements before the `k`-th, each followed by its comma. */
  function TextBefore(items: seq<Item>, k: nat): string
    requires k <= |items|
  {
    if k == 0 then "" else ItemText(items[0]) + "," + TextBefore(items[1..], k - 1)
  }

  /** Text after the value of the `k`-th element. */
  function TextAfter(items: seq<Item>, k: nat): string
    requires k < |items|
  {
    items[k].after + (if k + 1 < |items| then "," + ItemsText(items[k + 1..]) else "")
  }

  lemma {:induction false} ItemsTextSplit(items: seq<Item>, k: nat)
    requires k < |items|
    ensures ItemsText(items)
      == TextBefore(items, k) + items[k].before + Text(items[k].value) + TextAfter(items, k)
    decreases k
  {
    if k == 0 {
      ItemsTextHead(items);
    } else {
      var rest := items[1..];
      ItemsTextSplit(rest, k - 1);
      assert rest[k - 1] == items[k] && rest[k..] == items[k + 1..];
      assert TextAfter(rest, k - 1) == TextAfter(items, k);
      assert TextBefore(items, k) == ItemText(items[0]) + "," + TextBefore(rest, k - 1);
      assert ItemsText(items) == ItemText(items[0]) + ("," + ItemsText(rest));
      Prepend(ItemText(items[0]), TextBefore(rest, k - 1), rest[k - 1].before, Text(rest[k - 1].value),
              TextAfter(rest, k - 1));
    }
  }

  lemma ItemsTextHead(items: seq<Item>)
    requires items != []
    ensures ItemsText(items) == "" + items[0].before + Text(items[0].value) + TextAfter(items, 0)
  {
    var more := if 1 < |items| then "," + ItemsText(items[1..]) else "";
    assert ItemsText(items) == ItemText(items[0]) + more;
    Associate(items[0].before + Text(items[0].value), items[0].after, more);
    assert "" + items[0].before == items[0].before;
  }

  lemma Prepend(head: string, before: string, blanks: string, value: string, after: string)
    ensures head + ("," + (before + blanks + value + after)) == (head + "," + before) + blanks + value + after
  {
  }

  lemma {:induction false} SpanAt(items: seq<Item>, at: nat, k: nat)
    requires AllObjects(items) && k < |items| && |Spans(items, at)| == |items|
    ensures Spans(items, at)[k] == Span(items[k], at + |TextBefore(items, k)|)
    decreases k
  {
    if k == 0 {
    } else {
      var next := at + |ItemText(items[0])| + 1;
      SpansOfObjects(items[1..], next);
      SpanAt(items[1..], next, k - 1);
      assert Spans(items, at) == [Span(items[0], at)] + Spans(items[1..], next);
    }
  }

  lemma {:induction false} TextBeforeSame(items: seq<Item>, others: seq<Item>, k: nat)
    requires k <= |items| && k <= |others| && items[..k] == others[..k]
    ensures TextBefore(items, k) == TextBefore(others, k)
    decreases k
  {
    if k == 0 {
    } else {
      assert items[1..][..k - 1] == items[..k][1..];
      assert others[1..][..k - 1] == others[..k][1..];
      TextBeforeSame(items[1..], others[1..], k - 1);
      assert items[0] == items[..k][0] && others[0] == others[..k][0];
    }
  }

  /** Text before and after the value of the `k`-th element. */
  function Front(doc: Document, k: nat): string
    requires k < |doc.items|
  {
    doc.lead + "[" + TextBefore(doc.items, k) + doc.items[k].before
  }

  function Back(doc: Document, k: nat): string
    requires k < |doc.items|
  {
    TextAfter(doc.items, k) + ("]" + doc.trail)
  }

  lemma DocumentSplit(doc: Document, k: nat)
    requires k < |doc.items|
    ensures DocumentText(doc) == Front(doc, k) + Text(doc.items[k].value) + Back(doc, k)
  {
    ItemsTextSplit(doc.items, k);
    Regroup(doc.lead + "[", TextBefore(doc.items, k), doc.items[k].before, Text(doc.items[k].value),
            TextAfter(doc.items, k), "]", doc.trail);
  }

  lemma Regroup(a: string, b: string, c: string, d: string, e: string, f: string, g: string)
    ensures a + (b + c + d + e) + f + g == (a + b + c) + d + (e + (f + g))
  {
  }

  lemma SliceReplace(body: string, front: string, was: string, back: string, now: string, low: nat, high: nat)
    requires body == front + was + back && low == |front| && high == |front| + |was|
    ensures low <= high <= |body| && body[..low] == front && body[high..] == back
    ensures body[..low] + now + body[high..] == front + now + back
  {
  }

  lemma SameSurroundings(doc: Document, k: nat, v: Json)
    requires k < |doc.items|
    ensures Front(ReplaceItem(doc, k, v), k) == Front(doc, k) && Back(ReplaceItem(doc, k, v), k) == Back(doc, k)
  {
    var other := ReplaceItem(doc, k, v);
    assert doc.items[..k] == other.items[..k];
    TextBeforeSame(doc.items, other.items, k);
    assert other.items[k + 1..] == doc.items[k + 1..];
  }

  function SpanOf(doc: Document, k: nat): (nat, nat)
    requires k < |doc.items|
  {
    Span(doc.items[k], |doc.lead| + 1 + |TextBefore(doc.items, k)|)
  }

  lemma SpanOfBounds(doc: Document, k: nat)
    requires k < |doc.items|
    ensures SpanOf(doc, k).0 == |Front(doc, k)|
    ensures SpanOf(doc, k).1 == |Front(doc, k)| + |Text(doc.items[k].value)|
  {
  }

  /** Splicing at the matched span prints the document with that element's value replaced. */
  lemma ReplaceTextIsDocument(doc: Document, k: nat, v: Json, body: string, low: nat, high: nat)
    requires k < |doc.items| && body == DocumentText(doc) && (low, high) == SpanOf(doc, k)
    ensures low <= high <= |body|
    ensures body[..low] + Text(v) + body[high..] == DocumentText(ReplaceItem(doc, k, v))
    ensures Front(doc, k) == body[..low] && Back(doc, k) == body[high..]
  {
    DocumentSplit(doc, k);
    DocumentSplit(ReplaceItem(doc, k, v), k);
    SameSurroundings(doc, k, v);
    SpanOfBounds(doc, k);
    SliceReplace(body, Front(doc, k), Text(doc.items[k].value), Back(doc, k), Text(v), low, high);
  }

  /** The last character of a value is never white space. */
  lemma TextEndsSolid(v: Json)
    requires Wf(v)
    ensures Text(v) != "" && !IsWhiteSpace(Text(v)[|Text(v)| - 1]) && Text(v)[|Text(v)| - 1] != '\n'
  {
    if v.Literal? {
      assert IsLiteralChar(v.text[|v.text| - 1]);
    }
  }

  /** The insertion point is the end of the solid text. */
  lemma InsertAtEnd(solid: string, blanks: string, rest: string, entryJson: string, empty: bool)
    requires solid != "" && !IsWhiteSpace(solid[|solid| - 1]) && Blank(blanks)
    ensures InsertText(solid + blanks + rest, |solid + blanks|, entryJson, empty)
      == solid + (if empty then "\n" else ",\n") + IndentEvery(entryJson) + (blanks + rest)
  {
    var body := solid + blanks + rest;
    assert body[..|solid + blanks|] == solid + blanks;
    TrimBlanks(solid, blanks);
    assert body[..|solid|] == solid && body[|solid|..] == blanks + rest;
  }

  lemma EmptyShape(a: string, t: string, c: string, d: string)
    ensures a + "\n" + ("  " + t) + (c + d) == a + ("\n  " + t + c) + d
  {
    assert "\n" + ("  " + t) == "\n  " + t;
  }

  lemma AppendShape(a: string, b: string, t: string, c: string, d: string)
    ensures a + b + (("," + ("\n  " + t + c)) + d) == (a + b) + ",\n" + ("  " + t) + (c + d)
  {
    assert "," + ("\n  " + t) == ",\n" + ("  " + t);
  }

  lemma InsertIntoEmpty(doc: Document, v: Json, entryJson: string)
    requires WfDocument(doc) && IndentEvery(entryJson) == "  " + Text(v) && doc.items == []
    ensures InsertText(DocumentText(doc), ClosingAt(doc), entryJson, true) == DocumentText(AppendItem(doc, v))
  {
    var solid, rest := doc.lead + "[", "]" + doc.trail;
    InsertAtEnd(solid, doc.space, rest, entryJson, true);
    assert DocumentText(doc) == solid + doc.space + rest;
    assert ClosingAt(doc) == |solid + doc.space|;
    EmptyShape(solid, Text(v), doc.space, rest);
    AppendedToEmpty(doc, v);
  }

  lemma AppendedToEmpty(doc: Document, v: Json)
    requires doc.items == []
    ensures DocumentText(AppendItem(doc, v))
      == (doc.lead + "[") + ItemText(Item("\n  ", v, doc.space)) + ("]" + doc.trail)
  {
    var item := Item("\n  ", v, doc.space);
    assert AppendItem(doc, v).items == [item];
    assert ItemsText([item]) == ItemText(item);
  }

  lemma LastSplit(doc: Document)
    requires doc.items != []
    ensures var n := |doc.items| - 1;
      var solid, after := Front(doc, n) + Text(doc.items[n].value), doc.items[n].after;
      DocumentText(doc) == solid + after + ("]" + doc.trail) && ClosingAt(doc) == |solid + after|
  {
    var n := |doc.items| - 1;
    DocumentSplit(doc, n);
    ItemsTextSplit(doc.items, n);
    assert TextAfter(doc.items, n) == doc.items[n].after;
  }

  lemma InsertAfterLast(doc: Document, v: Json, entryJson: string)
    requires WfDocument(doc) && IndentEvery(entryJson) == "  " + Text(v) && doc.items != []
    ensures InsertText(DocumentText(doc), ClosingAt(doc), entryJson, false) == DocumentText(AppendItem(doc, v))
  {
    var n := |doc.items| - 1;
    var last := doc.items[n];
    var solid := Front(doc, n) + Text(last.value);
    WfItemsAt(doc.items);
    TextEndsSolid(last.value);
    assert solid[|solid| - 1] == Text(last.value)[|Text(last.value)| - 1];
    LastSplit(doc);
    InsertAtEnd(solid, last.after, "]" + doc.trail, entryJson, false);
    AppendedText(doc, v);
  }

  /** Inserting before the trimmed-off blanks prints the document with one more element. */
  lemma InsertTextIsDocument(doc: Document, v: Json, entryJson: string)
    requires WfDocument(doc) && IndentEvery(entryJson) == "  " + Text(v)
    ensures InsertText(DocumentText(doc), ClosingAt(doc), entryJson, doc.items == [])
      == DocumentText(AppendItem(doc, v))
  {
    if doc.items == [] {
      InsertIntoEmpty(doc, v, entryJson);
    } else {
      InsertAfterLast(doc, v, entryJson);
    }
  }

  lemma AppendedText(doc: Document, v: Json)
    requires doc.items != []
    ensures var n := |doc.items| - 1;
      var last := doc.items[n];
      DocumentText(AppendItem(doc, v))
        == (Front(doc, n) + Text(last.value)) + ",\n" + ("  " + Text(v)) + (last.after + ("]" + doc.trail))
  {
    var n, other := |doc.items| - 1, AppendItem(doc, v);
    var last, added := doc.items[n], Item("\n  ", v, doc.items[n].after);
    DocumentSplit(other, n);
    assert other.items[n] == last.(after := "");
    assert other.items[..n] == doc.items[..n];
    TextBeforeSame(doc.items, other.items, n);
    assert Front(other, n) == Front(doc, n);
    AppendedAfter(other.items, n, added);
    AppendShape(Front(doc, n), Text(last.value), Text(v), last.after, "]" + doc.trail);
  }

  lemma AppendedAfter(items: seq<Item>, n: nat, added: Item)
    requires n + 2 == |items| && items[n + 1] == added && items[n].after == ""
    ensures TextAfter(items, n) == "," + (added.before + Text(added.value) + added.after)
  {
    assert items[n + 1..] == [added];
    assert ItemsText([added]) == ItemText(added);
  }

  // ----- Outcome, frame and idempotence

  /** A well-formed database text, a printed candidate, and the assumptions on the decoder. */
  ghost predicate Setting(
      doc: Document, json: Json, candidate: DeviceEntry, parse: Parser, decode: Json -> Option<DeviceEntry>)
  {
    WfDocument(doc) && ParsesDocuments(parse, decode) && Prints(json, candidate, decode)
  }

  lemma {:induction false} DecodeAllAt(items: seq<Item>, decode: Json -> Option<DeviceEntry>)
    ensures DecodeAll(items, decode).Some? <==>
      forall i :: 0 <= i < |items| ==> decode(Strip(items[i].value)).Some?
    ensures DecodeAll(items, decode).Some? ==>
      && |DecodeAll(items, decode).value| == |items|
      && forall i :: 0 <= i < |items| ==> DecodeAll(items, decode).value[i] == decode(Strip(items[i].value)).value
    decreases |items|
  {
    if items == [] {
    } else {
      DecodeAllAt(items[1..], decode);
      assert items == [items[0]] + items[1..];
    }
  }

  /** The text form of the candidate in the database: an indented object that still decodes to it. */
  lemma {:induction false} PrintedForms(json: Json, candidate: DeviceEntry, decode: Json -> Option<DeviceEntry>)
    requires Prints(json, candidate, decode)
    ensures var v := Reindent(json);
      && Wf(v) && v.Obj? && decode(Strip(v)) == Some(candidate)
      && IndentAfterFirst(Text(json)) == Text(v)
      && IndentEvery(Text(json)) == "  " + Text(v)
  {
    TextEndsSolid(json);
    LinesIndent(Text(json));
    ReindentLaw(json);
    IndentedGlue(Lines(Text(json)));
  }

  lemma {:induction false} DecodeAllIs(items: seq<Item>, decode: Json -> Option<DeviceEntry>, entries: seq<DeviceEntry>)
    requires |entries| == |items|
    requires forall i :: 0 <= i < |items| ==> decode(Strip(items[i].value)) == Some(entries[i])
    ensures DecodeAll(items, decode) == Some(entries)
  {
    DecodeAllAt(items, decode);
    assert DecodeAll(items, decode).value == entries;
  }

  lemma {:induction false} ReplacedItems(doc: Document, k: nat, v: Json, decode: Json -> Option<DeviceEntry>)
    requires WfDocument(doc) && k < |doc.items| && Wf(v) && decode(Strip(v)).Some?
    requires DecodeAll(doc.items, decode).Some?
    ensures WfDocument(ReplaceItem(doc, k, v))
    ensures DecodeAll(ReplaceItem(doc, k, v).items, decode)
      == Some(DecodeAll(doc.items, decode).value[k := decode(Strip(v)).value])
  {
    WfItemsAt(doc.items);
    WfItemsAt(ReplaceItem(doc, k, v).items);
    DecodeAllAt(doc.items, decode);
    DecodeAllIs(ReplaceItem(doc, k, v).items, decode, DecodeAll(doc.items, decode).value[k := decode(Strip(v)).value]);
  }

  lemma {:induction false} AppendedItems(doc: Document, v: Json, decode: Json -> Option<DeviceEntry>)
    requires WfDocument(doc) && Wf(v) && decode(Strip(v)).Some?
    requires DecodeAll(doc.items, decode).Some?
    ensures WfDocument(AppendItem(doc, v))
    ensures DecodeAll(AppendItem(doc, v).items, decode)
      == Some(DecodeAll(doc.items, decode).value + [decode(Strip(v)).value])
  {
    var items, others := doc.items, AppendItem(doc, v).items;
    AppendedAt(doc, v);
    WfItemsAt(items);
    WfItemsAt(others);
    DecodeAllAt(items, decode);
    DecodeAllIs(others, decode, DecodeAll(items, decode).value + [decode(Strip(v)).value]);
  }

  lemma AppendedAt(doc: Document, v: Json)
    ensures var items, others := doc.items, AppendItem(doc, v).items;
      && |others| == |items| + 1
      && (forall i :: 0 <= i < |items| ==> others[i].value == items[i].value)
      && others[|items|].value == v
      && (WfDocument(doc) && Wf(v) ==> forall i :: 0 <= i < |others| ==> WfItem(others[i]))
  {
    WfItemsAt(doc.items);
  }

  /** Index of the entry an update touches: the first match, or one past the end. */
  function Target(entries: seq<DeviceEntry>, candidate: DeviceEntry): (k: nat)
    ensures k <= |entries|
    ensures k == |entries| <==> MatchingIndices(entries, candidate) == []
  {
    var matching := MatchingIndices(entries, candidate);
    if matching == [] then |entries|
    else
      assert matching[0] in matching;
      matching[0]
  }

  /** The document and the entries after a successful update. */
  function Updated(doc: Document, entries: seq<DeviceEntry>, candidate: DeviceEntry, json: Json): Document
    requires |entries| == |doc.items|
  {
    var k := Target(entries, candidate);
    if k == |entries| then AppendItem(doc, Reindent(json)) else ReplaceItem(doc, k, Reindent(json))
  }

  function UpdatedEntries(entries: seq<DeviceEntry>, candidate: DeviceEntry): seq<DeviceEntry> {
    var k := Target(entries, candidate);
    if k == |entries| then entries + [candidate] else entries[k := candidate]
  }

  /** The text the update splices together. */
  function SplicedText(body: string, entries: seq<DeviceEntry>, candidate: DeviceEntry, entryJson: string): string
    requires Scan(body).Ok? && |Scan(body).ranges| == |entries|
  {
    var k := Target(entries, candidate);
    if k == |entries| then InsertText(body, Scan(body).closing, entryJson, entries == [])
    else ReplaceText(body, Scan(body).ranges[k], entryJson)
  }

  lemma ScanOfObjects(doc: Document)
    requires WfDocument(doc) && AllObjects(doc.items)
    ensures Scan(DocumentText(doc)).Ok? && Scan(DocumentText(doc)).closing == ClosingAt(doc)
    ensures |Scan(DocumentText(doc)).ranges| == |doc.items|
    ensures forall k :: 0 <= k < |doc.items| ==> Scan(DocumentText(doc)).ranges[k] == SpanOf(doc, k)
  {
    ScanCorrect(doc);
    SpansOfObjects(doc.items, |doc.lead| + 1);
    forall k | 0 <= k < |doc.items| ensures Spans(doc.items, |doc.lead| + 1)[k] == SpanOf(doc, k) {
      SpanAt(doc.items, |doc.lead| + 1, k);
    }
  }

  /** The spliced text, whichever branch is taken, is the text of the updated document. */
  lemma {:induction false} SpliceIsDocument(
      doc: Document, json: Json, candidate: DeviceEntry, decode: Json -> Option<DeviceEntry>,
      entries: seq<DeviceEntry>)
    requires WfDocument(doc) && AllObjects(doc.items) && Prints(json, candidate, decode) && |entries| == |doc.items|
    ensures Scan(DocumentText(doc)).Ok? && |Scan(DocumentText(doc)).ranges| == |entries|
    ensures SplicedText(DocumentText(doc), entries, candidate, Text(json))
      == DocumentText(Updated(doc, entries, candidate, json))
  {
    var v, k := Reindent(json), Target(entries, candidate);
    ScanOfObjects(doc);
    PrintedForms(json, candidate, decode);
    if k == |entries| {
      InsertTextIsDocument(doc, v, Text(json));
    } else {
      var span := SpanOf(doc, k);
      ReplaceTextIsDocument(doc, k, v, DocumentText(doc), span.0, span.1);
    }
  }

  /** The updated document decodes to the updated entries. */
  lemma {:induction false} UpdatedDecodes(
      doc: Document, json: Json, candidate: DeviceEntry, decode: Json -> Option<DeviceEntry>,
      entries: seq<DeviceEntry>)
    requires WfDocument(doc) && AllObjects(doc.items) && Prints(json, candidate, decode)
    requires DecodeAll(doc.items, decode) == Some(entries)
    ensures WfDocument(Updated(doc, entries, candidate, json))
    ensures DecodeAll(Updated(doc, entries, candidate, json).items, decode) == Some(UpdatedEntries(entries, candidate))
  {
    var v, k := Reindent(json), Target(entries, candidate);
    PrintedForms(json, candidate, decode);
    if k == |entries| {
      AppendedItems(doc, v, decode);
    } else {
      ReplacedItems(doc, k, v, decode);
    }
  }

  /** The scan succeeds and finds one range for each element exactly when all elements are objects. */
  lemma {:induction false} ScannedCount(doc: Document)
    requires WfDocument(doc)
    ensures Scan(DocumentText(doc)).Ok?
    ensures |Scan(DocumentText(doc)).ranges| == |doc.items| <==> AllObjects(doc.items)
  {
    ScanCorrect(doc);
    SpansOfObjects(doc.items, |doc.lead| + 1);
  }

  /** Every outcome of an update of real evidence, with its exact condition. The second parse never fails. */
  lemma {:induction false} UpdateOutcome(
      doc: Document, json: Json, candidate: DeviceEntry, parse: Parser, decode: Json -> Option<DeviceEntry>,
      valid: DeviceEntry -> bool)
    requires Setting(doc, json, candidate, parse, decode)
    ensures var r := UpdateDatabase(false, DocumentText(doc), candidate, Text(json), parse, valid);
      var decoded := DecodeAll(doc.items, decode);
      if decoded.None? then r == Refused(Unparsable)
      else if !AllObjects(doc.items) then r == Refused(CountMismatch)
      else
        var entries, next := decoded.value, UpdatedEntries(decoded.value, candidate);
        var k := Target(entries, candidate);
        if |MatchingIndices(entries, candidate)| > 1 then r == Refused(Ambiguous)
        else if exists e :: e in next && !valid(e) then r == Refused(InvalidCorrections)
        else r == Done(Update(if k == |entries| then Inserted else Replaced, k, |next|,
                              DocumentText(Updated(doc, entries, candidate, json))))
  {
    ScannedCount(doc);
    assert parse(DocumentText(doc)) == DecodeAll(doc.items, decode);
    if DecodeAll(doc.items, decode).Some? && AllObjects(doc.items) {
      var entries := DecodeAll(doc.items, decode).value;
      SpliceIsDocument(doc, json, candidate, decode, entries);
      UpdatedDecodes(doc, json, candidate, decode, entries);
    }
  }

  /** The entry at `k`, and no other, is the candidate's device. */
  ghost predicate OnlyTwin(entries: seq<DeviceEntry>, candidate: DeviceEntry, k: nat) {
    k < |entries| && forall i :: 0 <= i < |entries| ==> (Twins(entries[i], candidate) <==> i == k)
  }

  /** Which entry an update touches, told by what makes devices the same: it is refused when two entries
      are the candidate's device, replaces the only one that is, and appends when there is none. */
  lemma {:induction false} UpdateDecides(
      doc: Document, json: Json, candidate: DeviceEntry, parse: Parser, decode: Json -> Option<DeviceEntry>,
      valid: DeviceEntry -> bool, entries: seq<DeviceEntry>, k: nat)
    requires Setting(doc, json, candidate, parse, decode) && AllObjects(doc.items)
    requires DecodeAll(doc.items, decode) == Some(entries)
    ensures var r := UpdateDatabase(false, DocumentText(doc), candidate, Text(json), parse, valid);
      && ((exists i, j :: 0 <= i < j < |entries| && Twins(entries[i], candidate) && Twins(entries[j], candidate)) ==>
            r == Refused(Ambiguous))
      && (OnlyTwin(entries, candidate, k) ==>
            r == if exists e :: e in entries[k := candidate] && !valid(e) then Refused(InvalidCorrections)
                 else Done(Update(Replaced, k, |entries|, DocumentText(ReplaceItem(doc, k, Reindent(json))))))
      && ((forall e :: e in entries ==> !Twins(e, candidate)) ==>
            r == if exists e :: e in entries + [candidate] && !valid(e) then Refused(InvalidCorrections)
                 else Done(Update(Inserted, |entries|, |entries| + 1,
                                  DocumentText(AppendItem(doc, Reindent(json))))))
  {
    UpdateOutcome(doc, json, candidate, parse, decode, valid);
    MatchesTwins(entries, candidate, k);
  }

  /** The indices of the matches, told the same way. */
  lemma MatchesTwins(entries: seq<DeviceEntry>, candidate: DeviceEntry, k: nat)
    ensures (exists i, j :: 0 <= i < j < |entries| && Twins(entries[i], candidate) && Twins(entries[j], candidate)) ==>
      |MatchingIndices(entries, candidate)| > 1
    ensures OnlyTwin(entries, candidate, k) ==>
      MatchingIndices(entries, candidate) == [k] && Target(entries, candidate) == k
    ensures (forall e :: e in entries ==> !Twins(e, candidate)) ==>
      MatchingIndices(entries, candidate) == [] && Target(entries, candidate) == |entries|
  {
    forall i | 0 <= i < |entries| ensures SameDevice(entries[i], candidate) <==> Twins(entries[i], candidate) {
      SameDeviceIff(entries[i], candidate);
    }
    if OnlyTwin(entries, candidate, k) {
      OnlyMatch(entries, candidate, k);
    }
    if forall e :: e in entries ==> !Twins(e, candidate) {
      OnlyMatch(entries, candidate, |entries|);
    }
    if i, j :| 0 <= i < j < |entries| && Twins(entries[i], candidate) && Twins(entries[j], candidate) {
      assert i in MatchingIndices(entries, candidate) && j in MatchingIndices(entries, candidate);
    }
  }

  /** Synthetic evidence never changes a database, and a body that is no text of an array is refused. */
  lemma {:induction false} OtherUpdatesRefused(
      synthetic: bool, body: string, json: Json, candidate: DeviceEntry, parse: Parser,
      decode: Json -> Option<DeviceEntry>, valid: DeviceEntry -> bool)
    requires ParsesDocuments(parse, decode) && (synthetic || !IsDocumentText(body))
    ensures UpdateDatabase(synthetic, body, candidate, Text(json), parse, valid)
      == Refused(if synthetic then SyntheticEvidence else Unparsable)
  {
    assert parse(body).Some? ==> IsDocumentText(body);
  }

  /** A done update comes from a document of objects with at most one match. */
  lemma {:induction false} DoneInversion(
      doc: Document, json: Json, candidate: DeviceEntry, parse: Parser, decode: Json -> Option<DeviceEntry>,
      valid: DeviceEntry -> bool) returns (entries: seq<DeviceEntry>)
    requires Setting(doc, json, candidate, parse, decode)
    requires UpdateDatabase(false, DocumentText(doc), candidate, Text(json), parse, valid).Done?
    ensures DecodeAll(doc.items, decode) == Some(entries) && |entries| == |doc.items| && AllObjects(doc.items)
    ensures |MatchingIndices(entries, candidate)| <= 1
    ensures forall e :: e in UpdatedEntries(entries, candidate) ==> valid(e)
    ensures UpdateDatabase(false, DocumentText(doc), candidate, Text(json), parse, valid).update
      == Update(if Target(entries, candidate) == |entries| then Inserted else Replaced, Target(entries, candidate),
                |UpdatedEntries(entries, candidate)|, DocumentText(Updated(doc, entries, candidate, json)))
  {
    UpdateOutcome(doc, json, candidate, parse, decode, valid);
    entries := DecodeAll(doc.items, decode).value;
  }

  lemma {:induction false} ObjectTextsAt(items: seq<Item>)
    requires AllObjects(items)
    ensures |ObjectTexts(items)| == |items|
    ensures forall i :: 0 <= i < |items| ==> ObjectTexts(items)[i] == Text(items[i].value)
    decreases |items|
  {
    if items == [] {
    } else {
      ObjectTextsAt(items[1..]);
      assert items == [items[0]] + items[1..];
    }
  }

  /** The spans reported for a document cut out its objects. */
  lemma DocumentObjects(doc: Document)
    requires WfDocument(doc)
    ensures Scan(DocumentText(doc)).Ok?
    ensures forall r :: r in Scan(DocumentText(doc)).ranges ==> r.0 <= r.1 <= |DocumentText(doc)|
    ensures Slices(DocumentText(doc), Scan(DocumentText(doc)).ranges) == ObjectTexts(doc.items)
  {
    ScanCorrect(doc);
    var body, at := DocumentText(doc), |doc.lead| + 1;
    assert body[at..] == ArrayInner(doc) + ("]" + doc.trail);
    if doc.items != [] {
      SpansCut(body, doc.items, at);
    }
  }

  function Exchanged(texts: seq<string>, k: nat, text: string): seq<string>
    requires k <= |texts|
  {
    if k == |texts| then texts + [text] else texts[k := text]
  }

  lemma UpdatedAllObjects(doc: Document, entries: seq<DeviceEntry>, candidate: DeviceEntry, json: Json)
    requires AllObjects(doc.items) && json.Obj? && |entries| == |doc.items|
    ensures AllObjects(Updated(doc, entries, candidate, json).items)
  {
  }

  /** The object texts of the updated document. */
  lemma UpdatedObjectTexts(
      doc: Document, json: Json, candidate: DeviceEntry, entries: seq<DeviceEntry>)
    requires AllObjects(doc.items) && json.Obj? && |entries| == |doc.items|
    ensures |ObjectTexts(doc.items)| == |entries|
    ensures ObjectTexts(Updated(doc, entries, candidate, json).items)
      == Exchanged(ObjectTexts(doc.items), Target(entries, candidate), Text(Reindent(json)))
  {
    UpdatedAllObjects(doc, entries, candidate, json);
    ObjectTextsAt(doc.items);
    ObjectTextsAt(Updated(doc, entries, candidate, json).items);
    SameTexts(doc, entries, candidate, json, Target(entries, candidate));
  }

  lemma SameTexts(doc: Document, entries: seq<DeviceEntry>, candidate: DeviceEntry, json: Json, k: nat)
    requires |entries| == |doc.items| && k == Target(entries, candidate)
    ensures var items, others := doc.items, Updated(doc, entries, candidate, json).items;
      && |others| == (if k == |items| then |items| + 1 else |items|)
      && others[k].value == Reindent(json)
      && forall i :: 0 <= i < |items| && i != k ==> others[i].value == items[i].value
  {
  }

  /** The texts a scan of `body` cuts out. */
  ghost predicate Finds(body: string, texts: seq<string>) {
    var scanned := Scan(body);
    && scanned.Ok?
    && (forall r :: r in scanned.ranges ==> r.0 <= r.1 <= |body|)
    && Slices(body, scanned.ranges) == texts
  }

  /** Frame: rescanning the result finds the old object texts with exactly the matched one replaced,
      or one appended at the end. */
  lemma {:induction false} UpsertFrame(
      doc: Document, json: Json, candidate: DeviceEntry, parse: Parser, decode: Json -> Option<DeviceEntry>,
      valid: DeviceEntry -> bool, update: Update) returns (olds: seq<string>)
    requires Setting(doc, json, candidate, parse, decode)
    requires UpdateDatabase(false, DocumentText(doc), candidate, Text(json), parse, valid) == Done(update)
    ensures Finds(DocumentText(doc), olds)
    ensures update.action == Inserted <==> update.entryIndex == |olds|
    ensures update.entryIndex <= |olds|
    ensures Finds(update.body, Exchanged(olds, update.entryIndex, IndentAfterFirst(Text(json))))
  {
    var entries := DoneInversion(doc, json, candidate, parse, decode, valid);
    UpdatedDecodes(doc, json, candidate, decode, entries);
    UpdatedObjectTexts(doc, json, candidate, entries);
    PrintedForms(json, candidate, decode);
    olds := ObjectTexts(doc.items);
    DocumentFinds(doc);
    DocumentFinds(Updated(doc, entries, candidate, json));
  }

  lemma DocumentFinds(doc: Document)
    requires WfDocument(doc)
    ensures Finds(DocumentText(doc), ObjectTexts(doc.items))
  {
    DocumentObjects(doc);
  }

  /** No other character changes: the result is the old text with the matched slice exchanged, or
      with text inserted at one point. */
  lemma {:induction false} UpsertKeepsOtherText(
      doc: Document, json: Json, candidate: DeviceEntry, parse: Parser, decode: Json -> Option<DeviceEntry>,
      valid: DeviceEntry -> bool, body: string, update: Update) returns (low: nat, high: nat, middle: string)
    requires Setting(doc, json, candidate, parse, decode) && body == DocumentText(doc)
    requires UpdateDatabase(false, body, candidate, Text(json), parse, valid) == Done(update)
    ensures low <= high <= |body| && update.body == body[..low] + middle + body[high..]
    ensures update.action == Inserted ==> low == high
    ensures update.action == Replaced ==> SpansEntry(Scan(body), update.entryIndex, low, high)
  {
    var entries := DoneInversion(doc, json, candidate, parse, decode, valid);
    SpliceIsDocument(doc, json, candidate, decode, entries);
    ScanOfObjects(doc);
    var k := Target(entries, candidate);
    if k == |entries| {
      low, high, middle := SplitInsert(body, ClosingAt(doc), Text(json), entries == []);
    } else {
      low, high, middle := SpanOf(doc, k).0, SpanOf(doc, k).1, IndentAfterFirst(Text(json));
      ReplaceTextIsDocument(doc, k, Reindent(json), body, low, high);
    }
  }

  predicate SpansEntry(scanned: Scanned, k: nat, low: nat, high: nat) {
    scanned.Ok? && k < |scanned.ranges| && scanned.ranges[k] == (low, high)
  }

  lemma SplitInsert(body: string, closing: nat, entryJson: string, empty: bool)
    returns (low: nat, high: nat, middle: string)
    requires closing <= |body|
    ensures low == high <= |body| && InsertText(body, closing, entryJson, empty) == body[..low] + middle + body[high..]
  {
    low := |TrimEnd(body[..closing], IsWhiteSpace)|;
    high, middle := low, (if empty then "\n" else ",\n") + IndentEvery(entryJson);
  }

  lemma MatchesAfterUpdate(entries: seq<DeviceEntry>, candidate: DeviceEntry)
    requires |MatchingIndices(entries, candidate)| <= 1
    ensures MatchingIndices(UpdatedEntries(entries, candidate), candidate) == [Target(entries, candidate)]
  {
    var before, next := MatchingIndices(entries, candidate), UpdatedEntries(entries, candidate);
    var k := Target(entries, candidate);
    SameDeviceLaws(candidate, candidate);
    assert next[k] == candidate;
    forall i | 0 <= i < |next| ensures SameDevice(next[i], candidate) <==> i == k {
      if i != k {
        assert next[i] == entries[i];
        NoOtherMatch(entries, candidate, i);
      }
    }
    OnlyMatch(next, candidate, k);
  }

  lemma NoOtherMatch(entries: seq<DeviceEntry>, candidate: DeviceEntry, i: nat)
    requires |MatchingIndices(entries, candidate)| <= 1 && i < |entries| && i != Target(entries, candidate)
    ensures !SameDevice(entries[i], candidate)
  {
    assert i in MatchingIndices(entries, candidate) <==> SameDevice(entries[i], candidate);
  }

  lemma {:induction false} OnlyMatch(entries: seq<DeviceEntry>, candidate: DeviceEntry, k: nat)
    requires forall i :: 0 <= i < |entries| ==> (SameDevice(entries[i], candidate) <==> i == k)
    ensures MatchingIndices(entries, candidate) == if k < |entries| then [k] else []
  {
    if entries == [] {
    } else {
      OnlyMatch(entries[..|entries| - 1], candidate, k);
    }
  }

  /** Idempotence: updating the result with the same candidate finds exactly that entry again and
      returns the same text, character for character. */
  lemma {:induction false} UpsertIdempotent(
      doc: Document, json: Json, candidate: DeviceEntry, parse: Parser, decode: Json -> Option<DeviceEntry>,
      valid: DeviceEntry -> bool, update: Update)
    requires Setting(doc, json, candidate, parse, decode)
    requires UpdateDatabase(false, DocumentText(doc), candidate, Text(json), parse, valid) == Done(update)
    ensures UpdateDatabase(false, update.body, candidate, Text(json), parse, valid)
      == Done(Update(Replaced, update.entryIndex, update.totalEntries, update.body))
  {
    var entries := DoneInversion(doc, json, candidate, parse, decode, valid);
    UpdatedDecodes(doc, json, candidate, decode, entries);
    UpdatedAllObjects(doc, entries, candidate, json);
    MatchesAfterUpdate(entries, candidate);
    UpdateAgain(doc, entries, candidate, json);
    SettledUpdate(Updated(doc, entries, candidate, json), json, candidate, parse, decode, valid,
                  UpdatedEntries(entries, candidate));
  }

  /** A document that its own update leaves alone is reported as replaced in place. */
  lemma {:induction false} SettledUpdate(
      doc: Document, json: Json, candidate: DeviceEntry, parse: Parser, decode: Json -> Option<DeviceEntry>,
      valid: DeviceEntry -> bool, entries: seq<DeviceEntry>)
    requires Setting(doc, json, candidate, parse, decode) && AllObjects(doc.items)
    requires DecodeAll(doc.items, decode) == Some(entries) && (forall e :: e in entries ==> valid(e))
    requires |MatchingIndices(entries, candidate)| == 1
    requires UpdatedEntries(entries, candidate) == entries && Updated(doc, entries, candidate, json) == doc
    ensures UpdateDatabase(false, DocumentText(doc), candidate, Text(json), parse, valid)
      == Done(Update(Replaced, Target(entries, candidate), |entries|, DocumentText(doc)))
  {
    UpdateOutcome(doc, json, candidate, parse, decode, valid);
  }

  /** Updating the updated entries and document changes neither. */
  lemma UpdateAgain(doc: Document, entries: seq<DeviceEntry>, candidate: DeviceEntry, json: Json)
    requires |entries| == |doc.items| && |MatchingIndices(entries, candidate)| <= 1
    ensures var next, again := Updated(doc, entries, candidate, json), UpdatedEntries(entries, candidate);
      && |again| == |next.items|
      && Target(again, candidate) == Target(entries, candidate) < |again|
      && UpdatedEntries(again, candidate) == again
      && Updated(next, again, candidate, json) == next
  {
    MatchesAfterUpdate(entries, candidate);
    var next, again := Updated(doc, entries, candidate, json), UpdatedEntries(entries, candidate);
    var k := Target(entries, candidate);
    SameTexts(doc, entries, candidate, json, k);
    assert again[k := candidate] == again;
    ReplaceWithSame(next, k, Reindent(json));
  }

  lemma ReplaceWithSame(doc: Document, k: nat, v: Json)
    requires k < |doc.items| && doc.items[k].value == v
    ensures ReplaceItem(doc, k, v) == doc
  {
    assert doc.items[k := doc.items[k]] == doc.items;
  }
}
