/** Credential profiles: the parser of KEY=value texts, the collection of legacy values and the
    serializer of a new profile. Reading and writing files is outside the model. */
module EnvProfile {
  import opened Common

  type Values = map<string, string>

  datatype ParseError = NullByte | Malformed | BadKey | DuplicateKey | UnmatchedQuotes

  datatype Parsed = Ok(values: Values) | Err(error: ParseError)

  datatype Profile =
    Profile(name: string, required: seq<string>, oneOf: seq<seq<string>>, optional: seq<string>)

  // ----- Characters

  /** White space of str.strip. */
  predicate IsSpace(c: char) {
    var n := c as int;
    9 <= n <= 13 || 0x1C <= n <= 0x20 || n == 0x85 || n == 0xA0 || n == 0x1680 || 0x2000 <= n <= 0x200A
    || n == 0x2028 || n == 0x2029 || n == 0x202F || n == 0x205F || n == 0x3000
  }

  /** Line boundaries of str.splitlines. */
  predicate IsBoundary(c: char) {
    var n := c as int;
    10 <= n <= 13 || 0x1C <= n <= 0x1E || n == 0x85 || n == 0x2028 || n == 0x2029
  }

  predicate OneLine(s: string) {
    forall i :: 0 <= i < |s| ==> !IsBoundary(s[i])
  }

  predicate IsUpper(c: char) {
    'A' <= c <= 'Z'
  }

  predicate IsEnvName(s: string) {
    s != "" && IsUpper(s[0]) && forall i :: 0 <= i < |s| ==> IsUpper(s[i]) || '0' <= s[i] <= '9' || s[i] == '_'
  }

  function Strip(s: string): string {
    Trim(s, IsSpace)
  }

  // ----- Lines

  /** Position of the first line boundary, or the length. */
  function LineEnd(s: string): (r: nat)
    ensures r <= |s| && OneLine(s[..r]) && (r < |s| ==> IsBoundary(s[r]))
  {
    if s == "" || IsBoundary(s[0]) then 0
    else
      var r := LineEnd(s[1..]) + 1;
      assert s[..r] == [s[0]] + s[1..][..r - 1];
      r
  }

  /** A carriage return and the line feed after it are one boundary. */
  function BoundaryWidth(s: string, k: nat): (r: nat)
    requires k < |s|
    ensures 1 <= r && k + r <= |s|
  {
    if s[k] == '\r' && k + 1 < |s| && s[k + 1] == '\n' then 2 else 1
  }

  function SplitLines(s: string): seq<string>
    decreases |s|
  {
    if s == "" then []
    else
      var k := LineEnd(s);
      if k == |s| then [s] else [s[..k]] + SplitLines(s[k + BoundaryWidth(s, k)..])
  }

  // ----- Parsing

  function IndexOf(s: string, c: char): (r: nat)
    ensures r <= |s| && c !in s[..r] && (r < |s| ==> s[r] == c)
  {
    if s == "" || s[0] == c then 0
    else
      var r := IndexOf(s[1..], c) + 1;
      assert s[..r] == [s[0]] + s[1..][..r - 1];
      r
  }

  const EXPORT := "export "

  /** A line without its blanks and without a leading `export`. */
  function Statement(line: string): string {
    Unprefixed(Strip(line), EXPORT)
  }

  function Unprefixed(s: string, prefix: string): string {
    if prefix <= s then Strip(s[|prefix|..]) else s
  }

  predicate Skipped(line: string) {
    Strip(line) == "" || Strip(line)[0] == '#'
  }

  predicate IsQuote(c: char) {
    c == '"' || c == '\''
  }

  function Unquote(value: string): Option<string> {
    if value == "" || !IsQuote(value[0]) then Some(value)
    else if |value| < 2 || value[|value| - 1] != value[0] then None
    else Some(value[1..|value| - 1])
  }

  /** A statement's key and unquoted value are added to the values. */
  function Assign(values: Values, key: string, raw: string): Parsed {
    var value := Unquote(raw);
    if !IsEnvName(key) then Err(BadKey)
    else if key in values then Err(DuplicateKey)
    else if value.None? then Err(UnmatchedQuotes)
    else Ok(values[key := value.value])
  }

  function ParseStatement(values: Values, s: string): Parsed {
    var k := IndexOf(s, '=');
    if k == |s| then Err(Malformed) else Assign(values, Strip(s[..k]), Strip(s[k + 1..]))
  }

  function ParseLine(values: Values, line: string): Parsed {
    if Skipped(line) then Ok(values) else ParseStatement(values, Statement(line))
  }

  function ParseLines(values: Values, lines: seq<string>): Parsed
    decreases |lines|
  {
    if lines == [] then Ok(values)
    else
      var r := ParseLine(values, lines[0]);
      if r.Err? then r else ParseLines(r.values, lines[1..])
  }

  const NUL: char := 0 as char

  function ParseEnvText(text: string): Parsed {
    if NUL in text then Err(NullByte) else ParseLines(map[], SplitLines(text))
  }

  /** The source's loop over the lines. */
  method ParseEnvTextLoop(text: string) returns (r: Parsed)
    ensures r == ParseEnvText(text)
  {
    if NUL in text { return Err(NullByte); }
    var lines := SplitLines(text);
    r := Ok(map[]);
    var i := 0;
    while i < |lines|
      invariant 0 <= i <= |lines|
      invariant r.Ok? && ParseLines(map[], lines) == ParseLines(r.values, lines[i..])
    {
      assert lines[i..][0] == lines[i] && lines[i..][1..] == lines[i + 1..];
      r := ParseLine(r.values, lines[i]);
      if r.Err? { return; }
      i := i + 1;
    }
  }

  // ----- Profiles

  function Flatten(groups: seq<seq<string>>): seq<string> {
    if groups == [] then [] else groups[0] + Flatten(groups[1..])
  }

  /** Required keys, then the alternatives, then the optional ones. */
  function Ordered(profile: Profile): seq<string> {
    profile.required + Flatten(profile.oneOf) + profile.optional
  }

  function AllowedKeys(profile: Profile): set<string> {
    set k | k in Ordered(profile)
  }

  /** What loading the registry guarantees: valid names, none assigned twice. */
  ghost predicate Registered(profile: Profile) {
    var keys := Ordered(profile);
    && (forall i :: 0 <= i < |keys| ==> IsEnvName(keys[i]))
    && forall i, j :: 0 <= i < j < |keys| ==> keys[i] != keys[j]
  }

  // ----- Collecting legacy values

  function Lookup(values: Values, key: string): string {
    if key in values then values[key] else ""
  }

  /** The stripped, non-empty values of a source for the allowed keys. */
  function Usable(profile: Profile, source: Values): Values {
    Offered(Ordered(profile), source)
  }

  function Offered(keys: seq<string>, source: Values): Values {
    if keys == [] then map[]
    else
      var rest, value := Offered(keys[1..], source), Strip(Lookup(source, keys[0]));
      if value != "" then rest[keys[0] := value] else rest
  }

  lemma {:induction false} OfferedAt(keys: seq<string>, source: Values, k: string)
    ensures k in Offered(keys, source) <==> k in keys && Strip(Lookup(source, k)) != ""
    ensures k in Offered(keys, source) ==> Offered(keys, source)[k] == Strip(Lookup(source, k))
  {
    if keys != [] {
      OfferedAt(keys[1..], source, k);
      assert k in keys <==> k == keys[0] || k in keys[1..];
    }
  }

  lemma UsableAt(profile: Profile, source: Values)
    ensures forall k :: k in Usable(profile, source) <==> k in AllowedKeys(profile) && Strip(Lookup(source, k)) != ""
    ensures forall k :: k in Usable(profile, source) ==> Usable(profile, source)[k] == Strip(Lookup(source, k))
  {
    forall k
      ensures k in Usable(profile, source) <==> k in AllowedKeys(profile) && Strip(Lookup(source, k)) != ""
      ensures k in Usable(profile, source) ==> Usable(profile, source)[k] == Strip(Lookup(source, k))
    {
      OfferedAt(Ordered(profile), source, k);
    }
  }

  /** Sources from lowest to highest precedence; unreadable ones are skipped and reported. */
  function Collect(profile: Profile, sources: seq<string>): (Values, bool)
    decreases |sources|
  {
    if sources == [] then (map[], false)
    else
      var last := |sources| - 1;
      var before, parsed := Collect(profile, sources[..last]), ParseEnvText(sources[last]);
      if parsed.Err? then (before.0, true) else (before.0 + Usable(profile, parsed.values), before.1)
  }

  const EMAIL := "RHYTHM_ADMIN_EMAIL"
  const PASSWORD := "RHYTHM_ADMIN_PASSWORD"
  const ACCESS_TOKEN := "RHYTHM_ADMIN_ACCESS_TOKEN"

  /** A complete staff login drops the access token. */
  function PreferLogin(profile: Profile, values: Values): Values {
    if profile.name == "staff" && Strip(Lookup(values, EMAIL)) != "" && Strip(Lookup(values, PASSWORD)) != "" then
      values - {ACCESS_TOKEN}
    else values
  }

  function LoadLegacyValues(profile: Profile, sources: seq<string>): (Values, bool) {
    var collected := Collect(profile, sources);
    (PreferLogin(profile, collected.0), collected.1)
  }

  /** The loop over the allowed keys: the non-empty values of a source, or of the environment, overwrite
      what was set before. */
  method Overwrite(profile: Profile, source: Values, before: Values) returns (values: Values)
    ensures values == before + Usable(profile, source)
  {
    ghost var usable := Usable(profile, source);
    NothingYet(profile, source, before);
    values := before;
    var todo := AllowedKeys(profile);
    while todo != {}
      invariant todo <= AllowedKeys(profile)
      invariant values == before + (usable - todo)
      decreases todo
    {
      var key :| key in todo;
      OfferStep(profile, source, todo, key, before);
      todo := todo - {key};
      var value := Strip(Lookup(source, key));
      if value != "" {
        values := values[key := value];
      }
    }
  }

  lemma CollectStep(profile: Profile, sources: seq<string>, i: nat)
    requires i < |sources|
    ensures var before, parsed := Collect(profile, sources[..i]), ParseEnvText(sources[i]);
      Collect(profile, sources[..i + 1])
        == if parsed.Err? then (before.0, true) else (before.0 + Usable(profile, parsed.values), before.1)
  {
    assert sources[..i + 1][..i] == sources[..i];
  }

  /** The source's loops: each readable source overwrites what the earlier ones set. */
  method LoadLegacyValuesLoop(profile: Profile, sources: seq<string>) returns (values: Values, unsafeSource: bool)
    ensures (values, unsafeSource) == LoadLegacyValues(profile, sources)
  {
    values, unsafeSource := map[], false;
    var i := 0;
    while i < |sources|
      invariant 0 <= i <= |sources|
      invariant (values, unsafeSource) == Collect(profile, sources[..i])
    {
      CollectStep(profile, sources, i);
      var parsed := ParseEnvTextLoop(sources[i]);
      i := i + 1;
      if parsed.Err? {
        unsafeSource := true;
        continue;
      }
      values := Overwrite(profile, parsed.values, values);
    }
    assert sources[..i] == sources;
    values := Login(profile, values);
  }

  /** The last step: a complete staff login pops the access token. */
  method Login(profile: Profile, collected: Values) returns (values: Values)
    ensures values == PreferLogin(profile, collected)
  {
    values := collected;
    if profile.name == "staff" && Strip(Lookup(values, EMAIL)) != "" && Strip(Lookup(values, PASSWORD)) != "" {
      values := values - {ACCESS_TOKEN};
    }
  }

  lemma NothingYet(profile: Profile, source: Values, before: Values)
    ensures before + (Usable(profile, source) - AllowedKeys(profile)) == before
  {
    UsableAt(profile, source);
    assert Usable(profile, source) - AllowedKeys(profile) == map[];
  }

  lemma OfferStep(profile: Profile, source: Values, todo: set<string>, key: string, before: Values)
    requires key in todo && todo <= AllowedKeys(profile)
    ensures var usable, value := Usable(profile, source), Strip(Lookup(source, key));
      before + (usable - (todo - {key}))
        == if value != "" then (before + (usable - todo))[key := value] else before + (usable - todo)
  {
    UsableAt(profile, source);
    PutBack(Usable(profile, source), todo, key, before);
  }

  lemma PutBack(usable: Values, todo: set<string>, key: string, before: Values)
    requires key in todo
    ensures before + (usable - (todo - {key})) ==
      if key in usable then (before + (usable - todo))[key := usable[key]] else before + (usable - todo)
  {
    if key in usable {
      assert usable - (todo - {key}) == (usable - todo)[key := usable[key]];
      AddThenPut(before, usable - todo, key, usable[key]);
    } else {
      assert usable - (todo - {key}) == usable - todo;
    }
  }

  // ----- Serializing

  predicate Serializable(value: string) {
    '\n' !in value && '\r' !in value && NUL !in value
  }

  function AssignmentLine(key: string, value: string): string {
    key + "='" + value + "'"
  }

  /** Lines of the keys that have a value, or nothing when a value cannot be written. */
  function SerializedLines(keys: seq<string>, values: Values): Option<seq<string>> {
    if keys == [] then Some([])
    else
      var rest := SerializedLines(keys[1..], values);
      if keys[0] !in values then rest
      else if !Serializable(values[keys[0]]) || rest.None? then None
      else Some([AssignmentLine(keys[0], values[keys[0]])] + rest.value)
  }

  function JoinLines(lines: seq<string>): string {
    if lines == [] then "" else if |lines| == 1 then lines[0] else lines[0] + "\n" + JoinLines(lines[1..])
  }

  function Serialize(profile: Profile, values: Values): Option<string> {
    var lines := SerializedLines(Ordered(profile), values);
    if lines.None? then None else Some(JoinLines(lines.value) + "\n")
  }

  /** The source's loop over the ordered keys. */
  method SerializeLoop(profile: Profile, values: Values) returns (text: Option<string>)
    ensures text == Serialize(profile, values)
  {
    var keys := Ordered(profile);
    var lines: seq<string> := [];
    var i := 0;
    assert keys[0..] == keys;
    PrependNothing(SerializedLines(keys, values));
    while i < |keys|
      invariant 0 <= i <= |keys|
      invariant SerializedLines(keys, values) == Prepend(lines, SerializedLines(keys[i..], values))
    {
      assert keys[i..][0] == keys[i] && keys[i..][1..] == keys[i + 1..];
      var key := keys[i];
      i := i + 1;
      if key !in values { continue; }
      if !Serializable(values[key]) { return None; }
      var line := AssignmentLine(key, values[key]);
      PrependSnoc(lines, line, SerializedLines(keys[i..], values));
      lines := lines + [line];
    }
    assert keys[i..] == [] && lines + [] == lines;
    text := Some(JoinLines(lines) + "\n");
  }

  function Prepend(lines: seq<string>, rest: Option<seq<string>>): Option<seq<string>> {
    if rest.None? then None else Some(lines + rest.value)
  }

  lemma PrependNothing(rest: Option<seq<string>>)
    ensures Prepend([], rest) == rest
  {
    if rest.Some? {
      assert [] + rest.value == rest.value;
    }
  }

  lemma PrependSnoc(lines: seq<string>, line: string, rest: Option<seq<string>>)
    ensures Prepend(lines + [line], rest) == Prepend(lines, Prepend([line], rest))
  {
    if rest.Some? {
      assert (lines + [line]) + rest.value == lines + ([line] + rest.value);
    }
  }

  // ----- Parsed values hold no line boundary

  ghost predicate Clean(values: Values) {
    forall k :: k in values ==> OneLine(values[k]) && NUL !in values[k]
  }

  ghost predicate CleanLine(line: string) {
    OneLine(line) && NUL !in line
  }

  /** Every character of `part` comes from `whole`. */
  ghost predicate From(part: string, whole: string) {
    forall c :: c in part ==> c in whole
  }

  lemma FromClean(part: string, whole: string)
    requires From(part, whole) && CleanLine(whole)
    ensures CleanLine(part)
  {
    forall i | 0 <= i < |part| ensures !IsBoundary(part[i]) {
      assert part[i] in whole;
    }
  }

  lemma StripFrom(s: string)
    ensures From(Strip(s), s)
  {
    var t := TrimStart(s, IsSpace);
    TrimStartLaw(s, IsSpace);
    TrimEndLaw(t, IsSpace);
  }

  lemma StatementFrom(line: string)
    ensures From(Statement(line), line)
  {
    var s := Strip(line);
    StripFrom(line);
    if EXPORT <= s {
      StripFrom(s[|EXPORT|..]);
    }
  }

  lemma AssignClean(values: Values, key: string, raw: string)
    requires Clean(values) && CleanLine(raw)
    ensures Assign(values, key, raw).Ok? ==> Clean(Assign(values, key, raw).values)
  {
    if Unquote(raw).Some? {
      assert From(Unquote(raw).value, raw);
      FromClean(Unquote(raw).value, raw);
    }
  }

  lemma ParseStatementClean(values: Values, s: string)
    requires Clean(values) && CleanLine(s)
    ensures ParseStatement(values, s).Ok? ==> Clean(ParseStatement(values, s).values)
  {
    var k := IndexOf(s, '=');
    if k < |s| {
      StripFrom(s[k + 1..]);
      FromClean(Strip(s[k + 1..]), s);
      AssignClean(values, Strip(s[..k]), Strip(s[k + 1..]));
    }
  }

  lemma ParseLineClean(values: Values, line: string)
    requires Clean(values) && CleanLine(line)
    ensures ParseLine(values, line).Ok? ==> Clean(ParseLine(values, line).values)
  {
    if !Skipped(line) {
      StatementFrom(line);
      FromClean(Statement(line), line);
      ParseStatementClean(values, Statement(line));
    }
  }

  lemma {:induction false} ParseLinesClean(values: Values, lines: seq<string>)
    requires Clean(values) && forall i :: 0 <= i < |lines| ==> CleanLine(lines[i])
    ensures ParseLines(values, lines).Ok? ==> Clean(ParseLines(values, lines).values)
    decreases |lines|
  {
    if lines == [] {
    } else {
      ParseLineClean(values, lines[0]);
      if ParseLine(values, lines[0]).Ok? {
        ParseLinesClean(ParseLine(values, lines[0]).values, lines[1..]);
      }
    }
  }

  lemma {:induction false} SplitLinesClean(s: string)
    requires NUL !in s
    ensures forall i :: 0 <= i < |SplitLines(s)| ==> CleanLine(SplitLines(s)[i])
    decreases |s|
  {
    if s == "" {
    } else {
      var k := LineEnd(s);
      if k < |s| {
        SplitLinesClean(s[k + BoundaryWidth(s, k)..]);
      } else {
        assert s[..k] == s;
      }
    }
  }

  /** No parsed value holds a line boundary or a null byte. */
  lemma ParseClean(text: string)
    requires ParseEnvText(text).Ok?
    ensures Clean(ParseEnvText(text).values)
  {
    SplitLinesClean(text);
    ParseLinesClean(map[], SplitLines(text));
  }

  // ----- Round trip

  /** The text after an equals sign stands for the value: quoted in either way, or bare. */
  ghost predicate Means(raw: string, value: string) {
    || raw == "'" + value + "'" || raw == "\"" + value + "\""
    || (raw == value && Solid(value, IsSpace) && (value == "" || !IsQuote(value[0])))
  }

  /** Nothing, or the word `export` and white space. */
  ghost predicate IsPrefix(x: string) {
    PrefixOrNone(x, EXPORT)
  }

  ghost predicate PrefixOrNone(x: string, prefix: string) {
    x == "" || (prefix <= x && AllSpace(x[|prefix|..], IsSpace))
  }

  /** The line consists of white space, the prefix, a valid name, an equals sign and a text, with white space
      around each of them. */
  ghost predicate Spelled(line: string, a: string, x: string, key: string, b: string, tail: string, z: string) {
    && AllSpace(a, IsSpace) && IsPrefix(x) && IsEnvName(key) && AllSpace(b, IsSpace) && AllSpace(z, IsSpace)
    && line == a + (x + (key + b + "=" + tail)) + z
  }

  /** The line assigns the value to the name. */
  ghost predicate Assigns(line: string, key: string, value: string) {
    exists a, x, b, c, raw, z ::
      Spelled(line, a, x, key, b, c + raw, z) && AllSpace(c, IsSpace) && Means(raw, value)
  }

  lemma StripSolid(s: string)
    requires s != "" && !IsSpace(s[0]) && !IsSpace(s[|s| - 1])
    ensures Strip(s) == s
  {
  }

  lemma StripPadded(a: string, core: string, b: string)
    requires AllSpace(a, IsSpace) && AllSpace(b, IsSpace) && Solid(core, IsSpace)
    ensures Strip(a + core + b) == core
  {
    TrimPadded(a, core, b, IsSpace);
  }

  lemma UnquoteIff(raw: string, value: string)
    requires Solid(raw, IsSpace)
    ensures Unquote(raw) == Some(value) <==> Means(raw, value)
  {
    if Unquote(raw) == Some(value) && raw != "" && IsQuote(raw[0]) {
      assert raw == [raw[0]] + value + [raw[|raw| - 1]];
    }
    if raw == "'" + value + "'" || raw == "\"" + value + "\"" {
      assert raw[1..|raw| - 1] == value;
    }
  }

  lemma NameChars(key: string)
    requires IsEnvName(key)
    ensures '=' !in key && Solid(key, IsSpace) && key != "" && key[0] != '#' && key[0] != EXPORT[0]
  {
    var last := key[|key| - 1];
    assert IsUpper(last) || '0' <= last <= '9' || last == '_';
  }

  /** The statement of a line: what is left without the white space and the prefix. */
  lemma StatementOf(a: string, x: string, body: string, z: string)
    requires AllSpace(a, IsSpace) && AllSpace(z, IsSpace) && IsPrefix(x)
    requires body != "" && Solid(body, IsSpace) && body[0] != '#' && body[0] != EXPORT[0]
    ensures !Skipped(a + (x + body) + z) && Statement(a + (x + body) + z) == body
  {
    UnprefixedBody(x, body, EXPORT);
    StripPadded(a, x + body, z);
  }

  lemma UnprefixedBody(x: string, body: string, prefix: string)
    requires PrefixOrNone(x, prefix) && Solid(body, IsSpace)
    requires body != "" && prefix != "" && body[0] != prefix[0] && !IsSpace(prefix[0])
    ensures Solid(x + body, IsSpace) && Unprefixed(x + body, prefix) == body
    ensures x + body != "" && ((x + body)[0] == body[0] || (x + body)[0] == prefix[0])
  {
    var s := x + body;
    assert s[|s| - 1] == body[|body| - 1];
    if x == "" {
      assert s == body;
    } else {
      var d := x[|prefix|..];
      assert s[..|prefix|] == prefix && s[|prefix|..] == d + body;
      assert d + body + "" == d + body;
      StripPadded(d, body, "");
    }
  }

  /** A statement with a valid name is split at its equals sign. */
  lemma StatementSplits(values: Values, key: string, b: string, tail: string)
    requires IsEnvName(key) && AllSpace(b, IsSpace)
    ensures ParseStatement(values, key + b + "=" + tail) == Assign(values, key, Strip(tail))
  {
    var s := key + b + "=" + tail;
    NameChars(key);
    assert s[..|key + b|] == key + b && s[|key + b|] == '=' && s[|key + b| + 1..] == tail;
    FirstEquals(s, |key + b|);
    assert "" + key + b == key + b;
    StripPadded("", key, b);
  }

  /** A tail without the white space after it: what a spelled line can always be cut to. */
  lemma SpelledReads(
      values: Values, line: string, a: string, x: string, key: string, b: string, tail: string, z: string)
    requires Spelled(line, a, x, key, b, tail, z)
    ensures !Skipped(line) && ParseLine(values, line) == Assign(values, key, Strip(tail))
  {
    NameChars(key);
    var core, end := TailCut(tail);
    var body := key + b + "=" + core;
    assert body[0] == key[0];
    assert body[|body| - 1] == if core == "" then '=' else core[|core| - 1];
    StatementOf(a, x, body, end + z);
    Regroup(a, x, key + b + "=", core, end, z);
    StatementSplits(values, key, b, core);
  }

  /** White space at the end of a tail does not matter. */
  lemma TailCut(tail: string) returns (core: string, end: string)
    ensures tail == core + end && AllSpace(end, IsSpace) && (core == "" || !IsSpace(core[|core| - 1]))
    ensures Strip(core) == Strip(tail)
  {
    core := TrimEnd(tail, IsSpace);
    end := SplitEnd(tail, IsSpace);
    var p, q := TrimSplits(core, IsSpace);
    var t := Strip(core);
    SolidEnds(p + t, q, IsSpace);
    Associate(p + t, q, end);
    StripPadded(p, t, q + end);
  }

  /** Every line that is not skipped and is accepted assigns a value, and every line that assigns one is
      accepted unless its name is taken. */
  lemma LineReads(values: Values, line: string, key: string, value: string)
    requires Assigns(line, key, value)
    ensures !Skipped(line)
    ensures ParseLine(values, line) == if key in values then Err(DuplicateKey) else Ok(values[key := value])
  {
    var a, x, b, c, raw, z :| Spelled(line, a, x, key, b, c + raw, z) && AllSpace(c, IsSpace) && Means(raw, value);
    SpelledReads(values, line, a, x, key, b, c + raw, z);
    assert c + raw + "" == c + raw;
    StripPadded(c, raw, "");
    UnquoteIff(raw, value);
  }

  lemma AcceptedAssigns(values: Values, line: string) returns (key: string, value: string)
    requires !Skipped(line) && ParseLine(values, line).Ok?
    ensures Assigns(line, key, value) && key !in values
  {
    var a, x, body, z := LineSplits(line);
    var b, c, raw, e;
    key, b, c, raw, e := BodySplits(values, body);
    value := Unquote(raw).value;
    UnquoteIff(raw, value);
    Regroup(a, x, key + b + "=", c + raw, e, z);
    assert Spelled(line, a, x, key, b, c + raw, e + z);
  }

  lemma BodySplits(values: Values, body: string)
      returns (key: string, b: string, c: string, raw: string, e: string)
    requires Solid(body, IsSpace) && ParseStatement(values, body).Ok?
    ensures body == key + b + "=" + (c + raw + e)
    ensures IsEnvName(key) && key !in values && AllSpace(b, IsSpace)
    ensures AllSpace(c, IsSpace) && AllSpace(e, IsSpace) && Solid(raw, IsSpace) && Unquote(raw).Some?
  {
    var k := IndexOf(body, '=');
    key, raw := Strip(body[..k]), Strip(body[k + 1..]);
    b := FrontSplits(body, k);
    c, e := TrimSplits(body[k + 1..], IsSpace);
    SplitAt(body, k);
  }

  lemma SplitAt(body: string, k: nat)
    requires k < |body| && body[k] == '='
    ensures body == body[..k] + "=" + body[k + 1..]
  {
  }

  lemma FrontSplits(body: string, k: nat) returns (b: string)
    requires Solid(body, IsSpace) && k <= |body|
    ensures AllSpace(b, IsSpace) && body[..k] == Strip(body[..k]) + b
  {
    var p;
    p, b := TrimSplits(body[..k], IsSpace);
    var core := Strip(body[..k]);
    assert p + (core + b) == body[..k];
    NothingInFront(body, body[..k], p, core + b);
    assert "" + (core + b) == core + b;
  }

  lemma NothingInFront(body: string, front: string, p: string, rest: string)
    requires Solid(body, IsSpace) && front <= body && AllSpace(p, IsSpace)
    ensures p + rest == front ==> p == ""
  {
    if p + rest == front {
      assert body == p + body[|p|..];
      SolidEnds(p, body[|p|..], IsSpace);
    }
  }

  lemma Regroup(a: string, x: string, head: string, tail: string, e: string, z: string)
    ensures a + (x + (head + (tail + e))) + z == a + (x + (head + tail)) + (e + z)
  {
    assert a + (x + (head + (tail + e))) + z == a + x + head + tail + e + z;
    assert a + (x + (head + tail)) + (e + z) == a + x + head + tail + e + z;
  }

  lemma LineSplits(line: string) returns (a: string, x: string, body: string, z: string)
    ensures AllSpace(a, IsSpace) && IsPrefix(x) && AllSpace(z, IsSpace) && line == a + (x + body) + z
    ensures body == Statement(line) && Solid(body, IsSpace)
  {
    a, z := TrimSplits(line, IsSpace);
    var s, e := Strip(line), "";
    x, body, e := UnprefixedSplits(s, EXPORT);
    PadRegroup(a, x + body, e, z);
    z := e + z;
  }

  lemma PadRegroup(a: string, core: string, e: string, z: string)
    ensures a + (core + e) + z == a + core + (e + z)
  {
  }

  lemma PrefixRest(s: string, prefix: string, d: string)
    requires prefix <= s
    ensures s == prefix + s[|prefix|..] && (prefix + d)[|prefix|..] == d && prefix <= prefix + d
  {
  }

  lemma UnprefixedSplits(s: string, prefix: string) returns (x: string, body: string, e: string)
    requires Solid(s, IsSpace)
    ensures PrefixOrNone(x, prefix) && body == Unprefixed(s, prefix) && Solid(body, IsSpace) && AllSpace(e, IsSpace)
    ensures s == x + body + e
  {
    if prefix <= s {
      var rest := s[|prefix|..];
      var d;
      d, e := TrimSplits(rest, IsSpace);
      body, x := Strip(rest), prefix + d;
      PrefixRest(s, prefix, d);
      Associate(d, body, e);
      Associate(prefix, d, body + e);
      Associate(prefix + d, body, e);
    } else {
      x, body, e := "", s, "";
      assert "" + s + "" == s;
    }
  }

  /** White space, and then a hash. */
  ghost predicate IsComment(line: string) {
    exists a, rest :: AllSpace(a, IsSpace) && line == a + ("#" + rest)
  }

  /** Blank lines and comments are skipped, and no others. */
  lemma SkippedIff(line: string)
    ensures Skipped(line) <==> AllSpace(line, IsSpace) || IsComment(line)
  {
    if Strip(line) != "" && Strip(line)[0] == '#' {
      StartsComment(line);
    }
    if AllSpace(line, IsSpace) {
      BlankStrips(line);
    }
    if Strip(line) == "" {
      var a, z := TrimSplits(line, IsSpace);
      assert a + "" + z == a + z;
    }
    if IsComment(line) {
      CommentStrips(line);
    }
  }

  lemma BlankStrips(line: string)
    requires AllSpace(line, IsSpace)
    ensures Strip(line) == ""
  {
    SkipSpace(line, "", IsSpace);
    assert line + "" == line;
  }

  lemma StartsComment(line: string)
    requires Strip(line) != "" && Strip(line)[0] == '#'
    ensures IsComment(line)
  {
    var a, z := TrimSplits(line, IsSpace);
    var s := Strip(line);
    HashFirst(s, z);
    Associate(a, s, z);
    assert line == a + ("#" + (s + z)[1..]);
  }

  lemma HashFirst(s: string, z: string)
    requires s != "" && s[0] == '#'
    ensures s + z == "#" + (s + z)[1..]
  {
  }

  lemma CommentStrips(line: string)
    requires IsComment(line)
    ensures Strip(line) != "" && Strip(line)[0] == '#'
  {
    var a, rest :| AllSpace(a, IsSpace) && line == a + ("#" + rest);
    SkipSpace(a, "#" + rest, IsSpace);
    TrimEndLaw("#" + rest, IsSpace);
  }

  // ----- Whole texts

  /** A line that the parser takes: one to skip, or one that assigns a value. */
  ghost predicate Understood(line: string) {
    Skipped(line) || exists key, value :: Assigns(line, key, value)
  }

  ghost predicate AssignedBy(lines: seq<string>, key: string, value: string) {
    exists i :: 0 <= i < |lines| && Assigns(lines[i], key, value)
  }

  ghost predicate Names(line: string, key: string) {
    exists value :: Assigns(line, key, value)
  }

  ghost predicate NamedBy(lines: seq<string>, key: string) {
    exists i :: 0 <= i < |lines| && Names(lines[i], key)
  }

  /** Every line is understood, and no two assign the same name. */
  ghost predicate Readable(lines: seq<string>) {
    && (forall i :: 0 <= i < |lines| ==> Understood(lines[i]))
    && forall i, j, key :: 0 <= i < j < |lines| && Names(lines[i], key) ==> !Names(lines[j], key)
  }

  lemma AssignsOnce(line: string, key: string, value: string, k: string, v: string)
    requires Assigns(line, key, value) && Assigns(line, k, v)
    ensures k == key && v == value
  {
    LineReads(map[], line, key, value);
    LineReads(map[], line, k, v);
    assert k in map[key := value] && map[key := value][k] == map[k := v][k];
  }

  lemma AssignedCons(line: string, rest: seq<string>, key: string, value: string)
    ensures AssignedBy([line] + rest, key, value) <==> Assigns(line, key, value) || AssignedBy(rest, key, value)
  {
    var lines := [line] + rest;
    assert lines[0] == line && forall i :: 0 <= i < |rest| ==> lines[i + 1] == rest[i];
    if i :| 0 <= i < |lines| && Assigns(lines[i], key, value) {
      assert i == 0 || lines[i] == rest[i - 1];
    }
  }

  lemma ReadableCons(line: string, rest: seq<string>)
    ensures Readable([line] + rest) <==>
      Understood(line) && Readable(rest) && forall key :: Names(line, key) ==> !NamedBy(rest, key)
  {
    var lines := [line] + rest;
    assert lines[0] == line && forall i :: 0 < i < |lines| ==> lines[i] == rest[i - 1];
    if Readable(lines) {
      ReadableTail(line, rest);
    }
  }

  lemma ReadableTail(line: string, rest: seq<string>)
    requires Readable([line] + rest)
    ensures Understood(line) && Readable(rest) && forall key :: Names(line, key) ==> !NamedBy(rest, key)
  {
    var lines := [line] + rest;
    assert lines[0] == line && lines[1..] == rest;
    ReadableFrom(lines, 1);
    forall i, key | 0 <= i < |rest| && Names(line, key) ensures !Names(rest[i], key) {
      assert lines[i + 1] == rest[i];
    }
  }

  lemma ReadableFrom(lines: seq<string>, n: nat)
    requires n <= |lines| && Readable(lines)
    ensures Readable(lines[n..])
  {
    var rest := lines[n..];
    forall i | 0 <= i < |rest| ensures Understood(rest[i]) {
      assert rest[i] == lines[n + i];
    }
    forall i, j, key | 0 <= i < j < |rest| && Names(rest[i], key) ensures !Names(rest[j], key) {
      assert rest[i] == lines[n + i] && rest[j] == lines[n + j];
    }
  }

  predicate Has(values: Values, key: string, value: string) {
    key in values && values[key] == value
  }

  ghost predicate FreshFor(start: Values, lines: seq<string>) {
    forall key :: NamedBy(lines, key) ==> key !in start
  }

  /** What reading the lines makes of the values so far. */
  ghost predicate ReadsTo(start: Values, lines: seq<string>, r: Parsed) {
    && (r.Ok? <==> Readable(lines) && FreshFor(start, lines))
    && (r.Ok? ==> forall key, v :: Has(r.values, key, v) <==> Has(start, key, v) || AssignedBy(lines, key, v))
  }

  lemma {:induction false} LinesRead(start: Values, lines: seq<string>)
    ensures ReadsTo(start, lines, ParseLines(start, lines))
    decreases |lines|
  {
    if lines == [] {
    } else {
      var line, rest := lines[0], lines[1..];
      assert lines == [line] + rest;
      if Skipped(line) {
        LinesRead(start, rest);
        SkippedFirst(start, line, rest);
      } else if key, value :| Assigns(line, key, value) {
        LineReads(start, line, key, value);
        AssignedCons(line, rest, key, value);
        if key !in start {
          LinesRead(start[key := value], rest);
          AssignedFirst(start, line, rest, key, value);
        }
      } else {
        ReadableCons(line, rest);
        NothingAssigned(start, line);
      }
    }
  }

  lemma NothingAssigned(start: Values, line: string)
    ensures !Understood(line) ==> ParseLine(start, line).Err?
  {
    if !Skipped(line) && ParseLine(start, line).Ok? {
      var key, value := AcceptedAssigns(start, line);
    }
  }

  lemma SkippedFirst(start: Values, line: string, rest: seq<string>)
    requires Skipped(line) && ReadsTo(start, rest, ParseLines(start, rest))
    ensures ReadsTo(start, [line] + rest, ParseLines(start, rest))
  {
    ReadableCons(line, rest);
    forall key, v ensures !Assigns(line, key, v) {
      if Assigns(line, key, v) {
        LineReads(start, line, key, v);
      }
    }
    forall key, v ensures AssignedBy([line] + rest, key, v) <==> AssignedBy(rest, key, v) {
      AssignedCons(line, rest, key, v);
    }
    forall key ensures NamedBy([line] + rest, key) <==> NamedBy(rest, key) {
      NamedCons(line, rest, key);
    }
  }

  lemma NamedCons(line: string, rest: seq<string>, key: string)
    ensures NamedBy([line] + rest, key) <==> Names(line, key) || NamedBy(rest, key)
  {
    var lines := [line] + rest;
    assert lines[0] == line && forall i :: 0 <= i < |rest| ==> lines[i + 1] == rest[i];
    if i :| 0 <= i < |lines| && Names(lines[i], key) {
      assert i == 0 || lines[i] == rest[i - 1];
    }
  }

  lemma AssignedFirst(start: Values, line: string, rest: seq<string>, key: string, value: string)
    requires Assigns(line, key, value) && key !in start
    requires ReadsTo(start[key := value], rest, ParseLines(start[key := value], rest))
    ensures ReadsTo(start, [line] + rest, ParseLines(start[key := value], rest))
  {
    OneAssigned(line, rest, key, value);
    ReadableCons(line, rest);
    forall k ensures NamedBy([line] + rest, k) <==> k == key || NamedBy(rest, k) {
      NamedCons(line, rest, k);
    }
    HasNext(start, key, value);
  }

  lemma HasNext(start: Values, key: string, value: string)
    requires key !in start
    ensures forall k, v :: Has(start[key := value], k, v) <==> Has(start, k, v) || (k == key && v == value)
  {
    forall k, v ensures Has(start[key := value], k, v) <==> Has(start, k, v) || (k == key && v == value) {
      assert k in start[key := value] <==> k == key || k in start;
    }
  }

  lemma OneAssigned(line: string, rest: seq<string>, key: string, value: string)
    requires Assigns(line, key, value)
    ensures forall k :: Names(line, k) <==> k == key
    ensures forall k, v :: AssignedBy([line] + rest, k, v) <==> (k == key && v == value) || AssignedBy(rest, k, v)
  {
    forall k, v | Assigns(line, k, v) ensures k == key && v == value {
      AssignsOnce(line, key, value, k, v);
    }
    forall k, v ensures AssignedBy([line] + rest, k, v) <==> (k == key && v == value) || AssignedBy(rest, k, v) {
      AssignedCons(line, rest, k, v);
    }
  }

  /** The parser's contract, for every text: it is accepted exactly without null bytes, when every line is
      blank, a comment or an assignment and no name is assigned twice; its values are those assigned. */
  lemma TextIff(text: string)
    ensures ParseEnvText(text).Ok? <==> NUL !in text && Readable(SplitLines(text))
    ensures ParseEnvText(text).Ok? ==>
      forall key, v :: Has(ParseEnvText(text).values, key, v) <==> AssignedBy(SplitLines(text), key, v)
  {
    LinesRead(map[], SplitLines(text));
  }

  /** Where lines end: at any boundary, a carriage return and the line feed after it counting as one. */
  lemma SplitLinesLaw(line: string, boundary: char, rest: string)
    requires OneLine(line) && IsBoundary(boundary)
    ensures SplitLines(line) == if line == "" then [] else [line]
    ensures SplitLines(line + "\r\n" + rest) == [line] + SplitLines(rest)
    ensures !(boundary == '\r' && rest != "" && rest[0] == '\n') ==>
      SplitLines(line + [boundary] + rest) == [line] + SplitLines(rest)
  {
    NoBoundary(line);
    SplitAtPair(line, rest);
    if !(boundary == '\r' && rest != "" && rest[0] == '\n') {
      SplitAtOne(line, boundary, rest);
    }
  }

  lemma SplitAtPair(line: string, rest: string)
    requires OneLine(line)
    ensures SplitLines(line + "\r\n" + rest) == [line] + SplitLines(rest)
  {
    var s := "\r\n" + rest;
    assert line + "\r\n" + rest == line + s && s[2..] == rest && s[0] == '\r' && s[1] == '\n';
    SplitAtBoundary(line, s, 2);
  }

  lemma SplitAtOne(line: string, boundary: char, rest: string)
    requires OneLine(line) && IsBoundary(boundary) && !(boundary == '\r' && rest != "" && rest[0] == '\n')
    ensures SplitLines(line + [boundary] + rest) == [line] + SplitLines(rest)
  {
    var s := [boundary] + rest;
    assert line + [boundary] + rest == line + s && s[1..] == rest;
    SplitAtBoundary(line, s, 1);
  }

  lemma {:induction false} NoBoundary(line: string)
    requires OneLine(line)
    ensures LineEnd(line) == |line| && SplitLines(line) == if line == "" then [] else [line]
  {
    if line == "" {
    } else {
      NoBoundary(line[1..]);
      assert line[..|line|] == line;
    }
  }

  lemma SplitAtBoundary(line: string, rest: string, width: nat)
    requires OneLine(line) && rest != "" && IsBoundary(rest[0]) && width == BoundaryWidth(rest, 0)
    ensures SplitLines(line + rest) == [line] + SplitLines(rest[width..])
  {
    var s := line + rest;
    LineEndAt(line, rest);
    assert s[..|line|] == line && s[|line|] == rest[0] && s[|line| + width..] == rest[width..];
    assert |rest| > 1 ==> s[|line| + 1] == rest[1];
    assert BoundaryWidth(s, |line|) == width;
  }

  /** A written line is read back as its key and value, whatever quotes, equals signs or hashes the
      value holds. */
  lemma AssignmentReads(values: Values, key: string, value: string)
    requires IsEnvName(key) && key !in values
    ensures ParseLine(values, AssignmentLine(key, value)) == Ok(values[key := value])
  {
    var raw := "'" + value + "'";
    assert AssignmentLine(key, value) == "" + ("" + (key + "" + "=" + ("" + raw))) + "";
    assert Spelled(AssignmentLine(key, value), "", "", key, "", "" + raw, "");
    assert Assigns(AssignmentLine(key, value), key, value);
    LineReads(values, AssignmentLine(key, value), key, value);
  }

  lemma {:induction false} FirstEquals(line: string, k: nat)
    requires k < |line| && line[k] == '=' && '=' !in line[..k]
    ensures IndexOf(line, '=') == k
  {
    if k == 0 {
    } else {
      assert line[0] in line[..k];
      assert line[1..][..k - 1] == line[..k][1..];
      FirstEquals(line[1..], k - 1);
    }
  }

  /** The values after reading the written lines, one key at a time. */
  function Assigned(start: Values, keys: seq<string>, values: Values): Values
    decreases |keys|
  {
    if keys == [] then start
    else Assigned(if keys[0] in values then start[keys[0] := values[keys[0]]] else start, keys[1..], values)
  }

  lemma {:induction false} AssignmentsRead(start: Values, keys: seq<string>, values: Values)
    requires forall i :: 0 <= i < |keys| ==> IsEnvName(keys[i]) && keys[i] !in start
    requires forall i, j :: 0 <= i < j < |keys| ==> keys[i] != keys[j]
    requires SerializedLines(keys, values).Some?
    ensures ParseLines(start, SerializedLines(keys, values).value) == Ok(Assigned(start, keys, values))
    decreases |keys|
  {
    if keys == [] {
    } else {
      var key, rest := keys[0], keys[1..];
      assert forall i :: 0 <= i < |rest| ==> rest[i] == keys[i + 1];
      if key in values {
        var lines := SerializedLines(rest, values).value;
        AssignmentReads(start, key, values[key]);
        AssignmentsRead(start[key := values[key]], rest, values);
        assert ([AssignmentLine(key, values[key])] + lines)[1..] == lines;
      } else {
        AssignmentsRead(start, rest, values);
      }
    }
  }

  lemma {:induction false} AssignedValues(start: Values, keys: seq<string>, values: Values, k: string)
    ensures k in Assigned(start, keys, values) <==> k in start || (k in keys && k in values)
    ensures k in Assigned(start, keys, values) ==>
      Assigned(start, keys, values)[k] == if k in keys && k in values then values[k] else start[k]
    decreases |keys|
  {
    if keys == [] {
    } else {
      assert keys == [keys[0]] + keys[1..];
      AssignedValues(if keys[0] in values then start[keys[0] := values[keys[0]]] else start, keys[1..], values, k);
    }
  }

  lemma AssignedAll(keys: seq<string>, values: Values)
    requires forall k :: k in values ==> k in keys
    ensures Assigned(map[], keys, values) == values
  {
    forall k ensures k in Assigned(map[], keys, values) <==> k in values {
      AssignedValues(map[], keys, values, k);
    }
    forall k | k in values ensures Assigned(map[], keys, values)[k] == values[k] {
      AssignedValues(map[], keys, values, k);
    }
  }

  lemma {:induction false} LineEndAt(line: string, rest: string)
    requires OneLine(line) && rest != "" && IsBoundary(rest[0])
    ensures LineEnd(line + rest) == |line|
  {
    var s := line + rest;
    if line == "" {
    } else {
      assert s[0] == line[0] && s[1..] == line[1..] + rest;
      LineEndAt(line[1..], rest);
    }
  }

  lemma SplitStep(line: string, rest: string)
    requires OneLine(line)
    ensures SplitLines(line + ("\n" + rest)) == [line] + SplitLines(rest)
  {
    assert ("\n" + rest)[1..] == rest;
    SplitAtBoundary(line, "\n" + rest, 1);
  }

  /** The joined text is the first line, a line feed, and the rest. */
  lemma JoinedStep(lines: seq<string>, rest: string)
    requires lines != [] && rest == if |lines| == 1 then "" else JoinLines(lines[1..]) + "\n"
    ensures JoinLines(lines) + "\n" == lines[0] + ("\n" + rest)
  {
    if |lines| == 1 {
      assert "\n" + "" == "\n";
    } else {
      JoinedCons(lines[0], JoinLines(lines[1..]));
    }
  }

  lemma JoinedCons(line: string, more: string)
    ensures line + "\n" + more + "\n" == line + ("\n" + (more + "\n"))
  {
  }

  lemma {:induction false} SplitJoined(lines: seq<string>)
    requires lines != [] && forall i :: 0 <= i < |lines| ==> OneLine(lines[i])
    ensures SplitLines(JoinLines(lines) + "\n") == lines
  {
    var rest := if |lines| == 1 then "" else JoinLines(lines[1..]) + "\n";
    JoinedStep(lines, rest);
    SplitStep(lines[0], rest);
    if |lines| == 1 {
    } else {
      SplitJoined(lines[1..]);
    }
  }

  lemma {:induction false} SerializedClean(keys: seq<string>, values: Values)
    requires SerializedLines(keys, values).Some? && forall i :: 0 <= i < |keys| ==> IsEnvName(keys[i])
    requires forall k :: k in values ==> OneLine(values[k])
    ensures var lines := SerializedLines(keys, values).value;
      forall i :: 0 <= i < |lines| ==> CleanLine(lines[i])
  {
    if keys == [] {
    } else {
      assert forall i :: 0 <= i < |keys[1..]| ==> keys[1..][i] == keys[i + 1];
      SerializedClean(keys[1..], values);
    }
  }

  lemma {:induction false} JoinedHasNoNul(lines: seq<string>)
    requires forall i :: 0 <= i < |lines| ==> NUL !in lines[i]
    ensures NUL !in JoinLines(lines)
  {
    if |lines| <= 1 {
    } else {
      JoinedHasNoNul(lines[1..]);
    }
  }

  /** A profile that the serializer accepts is read back exactly when no value holds a line boundary.
      The serializer itself refuses only line feeds, carriage returns and null bytes. */
  lemma SerializeRoundTrip(profile: Profile, values: Values)
    requires Registered(profile) && values.Keys <= AllowedKeys(profile) && Serialize(profile, values).Some?
    ensures ParseEnvText(Serialize(profile, values).value) == Ok(values)
      <==> forall k :: k in values ==> OneLine(values[k])
  {
    var text, keys := Serialize(profile, values).value, Ordered(profile);
    if forall k :: k in values ==> OneLine(values[k]) {
      var lines := SerializedLines(keys, values).value;
      SerializedClean(keys, values);
      JoinedHasNoNul(lines);
      AssignmentsRead(map[], keys, values);
      AssignedAll(keys, values);
      if lines == [] {
        EmptyTextReads();
      } else {
        SplitJoined(lines);
      }
    } else if ParseEnvText(text).Ok? {
      ParseClean(text);
    }
  }

  lemma EmptyTextReads()
    ensures ParseEnvText("\n") == Ok(map[])
  {
    SplitStep("", "");
    assert "" + ("\n" + "") == "\n";
    assert SplitLines("\n") == [""];
    EmptyLineReads();
  }

  lemma EmptyLineReads()
    ensures ParseLines(map[], [""]) == Ok(map[])
  {
    assert Skipped("");
    assert [""][1..] == [];
  }

  /** A value with a vertical tab passes the serializer's own check and is not read back. */
  lemma VerticalTabIsLost(profile: Profile, key: string)
    requires Registered(profile) && key in AllowedKeys(profile)
    ensures var values := map[key := [11 as char]];
      Serialize(profile, values).Some? && ParseEnvText(Serialize(profile, values).value) != Ok(values)
  {
    var values := map[key := [11 as char]];
    SerializableLines(Ordered(profile), values);
    SerializeRoundTrip(profile, values);
    assert IsBoundary(values[key][0]);
  }

  lemma {:induction false} SerializableLines(keys: seq<string>, values: Values)
    requires forall k :: k in values ==> Serializable(values[k])
    ensures SerializedLines(keys, values).Some?
  {
    if keys == [] {
    } else {
      SerializableLines(keys[1..], values);
    }
  }

  /** Values as the collection gathers them: of allowed keys, on one line, not blank. */
  ghost predicate Gathered(profile: Profile, values: Values) {
    && Clean(values) && values.Keys <= AllowedKeys(profile)
    && forall k :: k in values ==> Strip(values[k]) != ""
  }

  /** How many of the first `n` keys have a value: the place of the next written line. */
  function Place(keys: seq<string>, values: Values, n: nat): nat
    requires n <= |keys|
  {
    if n == 0 then 0 else (if keys[0] in values then 1 else 0) + Place(keys[1..], values, n - 1)
  }

  /** The serializer refuses exactly values with a line feed, a carriage return or a null byte. Otherwise it
      writes one line for each key that has a value, in the order of the registry. */
  lemma {:induction false} SerializedAt(keys: seq<string>, values: Values, i: nat)
    requires i < |keys|
    ensures SerializedLines(keys, values).Some? <==>
      forall k :: k in keys && k in values ==> '\n' !in values[k] && '\r' !in values[k] && NUL !in values[k]
    ensures SerializedLines(keys, values).Some? ==>
      var lines := SerializedLines(keys, values).value;
      && |lines| == Place(keys, values, |keys|)
      && (keys[i] in values ==>
            && Place(keys, values, i) < |lines|
            && lines[Place(keys, values, i)] == keys[i] + "='" + values[keys[i]] + "'")
  {
    assert keys == [keys[0]] + keys[1..];
    if |keys| > 1 {
      SerializedAt(keys[1..], values, if i == 0 then 0 else i - 1);
    } else {
      assert SerializedLines(keys[1..], values) == Some([]);
    }
  }

  lemma {:induction false} CollectGathers(profile: Profile, sources: seq<string>)
    ensures Gathered(profile, Collect(profile, sources).0)
    decreases |sources|
  {
    if sources == [] {
    } else {
      var last := |sources| - 1;
      CollectGathers(profile, sources[..last]);
      if ParseEnvText(sources[last]).Ok? {
        ParseClean(sources[last]);
        UsableGathered(profile, ParseEnvText(sources[last]).values);
        GatherBoth(profile, Collect(profile, sources[..last]).0, Usable(profile, ParseEnvText(sources[last]).values));
      }
    }
  }

  lemma GatherBoth(profile: Profile, before: Values, more: Values)
    requires Gathered(profile, before) && Gathered(profile, more)
    ensures Gathered(profile, before + more)
  {
  }

  /** What a source offers for a key: nothing when it cannot be read. */
  function Offer(profile: Profile, text: string, key: string): Option<string> {
    var parsed := ParseEnvText(text);
    if parsed.Err? then None
    else
      var usable := Usable(profile, parsed.values);
      if key in usable then Some(usable[key]) else None
  }

  /** The offer of the source with the highest precedence that makes one. */
  function LastOffer(profile: Profile, sources: seq<string>, key: string): Option<string>
    decreases |sources|
  {
    if sources == [] then None
    else
      var last := |sources| - 1;
      var offer := Offer(profile, sources[last], key);
      if offer.Some? then offer else LastOffer(profile, sources[..last], key)
  }

  /** Precedence: each key is collected from the last source that offers it, skipping unreadable ones. */
  lemma {:induction false} LastSourceWins(profile: Profile, sources: seq<string>, key: string)
    ensures var values := Collect(profile, sources).0;
      LastOffer(profile, sources, key) == if key in values then Some(values[key]) else None
    decreases |sources|
  {
    if sources == [] {
    } else {
      LastSourceWins(profile, sources[..|sources| - 1], key);
    }
  }

  lemma UsableGathered(profile: Profile, source: Values)
    requires Clean(source)
    ensures Gathered(profile, Usable(profile, source))
  {
    UsableAt(profile, source);
    forall k | k in Usable(profile, source)
      ensures CleanLine(Usable(profile, source)[k]) && Strip(Usable(profile, source)[k]) != ""
    {
      var value := Lookup(source, k);
      StripFrom(value);
      FromClean(Strip(value), value);
      StripTwice(value);
    }
  }

  lemma StripTwice(s: string)
    ensures Strip(Strip(s)) == Strip(s)
  {
    var t := TrimStart(s, IsSpace);
    var r := TrimEnd(t, IsSpace);
    TrimStartLaw(s, IsSpace);
    TrimEndLaw(t, IsSpace);
    assert r != "" ==> r[0] == t[0];
    if r != "" {
      StripSolid(r);
    }
  }

  /** What a source offers for a key: the value its lines assign to it, without white space around it, unless
      the key is not the profile's, the value is blank, or some line cannot be read. */
  lemma OfferIff(profile: Profile, text: string, key: string, value: string)
    ensures Offer(profile, text, key) == Some(value) <==>
      && NUL !in text && Readable(SplitLines(text)) && key in AllowedKeys(profile) && value != ""
      && exists v :: AssignedBy(SplitLines(text), key, v) && Strip(v) == value
  {
    TextIff(text);
    var parsed := ParseEnvText(text);
    if parsed.Ok? {
      UsableAt(profile, parsed.values);
      if key in parsed.values {
        assert Has(parsed.values, key, parsed.values[key]);
      }
      if v :| AssignedBy(SplitLines(text), key, v) && Strip(v) == value {
        assert Has(parsed.values, key, v);
      }
    }
  }

  /** The legacy collection, key by key: the last offer of a readable source, but no access token for a staff
      profile that has a complete login; and whether some source could not be read. */
  lemma LegacyValuesIff(profile: Profile, sources: seq<string>, key: string, value: string)
    ensures var r := LoadLegacyValues(profile, sources);
      && (Has(r.0, key, value) <==>
            && LastOffer(profile, sources, key) == Some(value)
            && !(profile.name == "staff" && key == "RHYTHM_ADMIN_ACCESS_TOKEN"
                 && LastOffer(profile, sources, "RHYTHM_ADMIN_EMAIL").Some?
                 && LastOffer(profile, sources, "RHYTHM_ADMIN_PASSWORD").Some?))
      && (r.1 <==> exists text :: text in sources && IsRefused(text))
  {
    LastSourceWins(profile, sources, key);
    LastSourceWins(profile, sources, EMAIL);
    LastSourceWins(profile, sources, PASSWORD);
    CollectGathers(profile, sources);
    UnsafeIff(profile, sources);
  }

  lemma {:induction false} UnsafeIff(profile: Profile, sources: seq<string>)
    ensures Collect(profile, sources).1 <==> exists text :: text in sources && IsRefused(text)
    decreases |sources|
  {
    if sources == [] {
    } else {
      var last := |sources| - 1;
      UnsafeIff(profile, sources[..last]);
      assert forall text :: text in sources <==> text in sources[..last] || text == sources[last];
      assert IsRefused(sources[last]) <==> ParseEnvText(sources[last]).Err?;
    }
  }

  predicate IsRefused(text: string) {
    ParseEnvText(text).Err?
  }

  /** Migration round trip: for all legacy texts, readable or not, the collected values can be
      serialized, and reading the new profile gives back exactly those values. */
  lemma MigrationRoundTrip(profile: Profile, sources: seq<string>)
    requires Registered(profile)
    ensures var values := LoadLegacyValues(profile, sources).0;
      Serialize(profile, values).Some? && ParseEnvText(Serialize(profile, values).value) == Ok(values)
  {
    var values := LoadLegacyValues(profile, sources).0;
    CollectGathers(profile, sources);
    assert Clean(values) && values.Keys <= AllowedKeys(profile);
    forall k | k in values ensures Serializable(values[k]) {
      CleanIsSerializable(values[k]);
    }
    SerializableLines(Ordered(profile), values);
    SerializeRoundTrip(profile, values);
  }

  lemma CleanIsSerializable(value: string)
    requires CleanLine(value)
    ensures Serializable(value)
  {
    assert IsBoundary('\n') && IsBoundary('\r');
  }

  // ----- Validation

  datatype ValidationError = UndeclaredKeys | MissingRequired | NoCompleteAlternative

  predicate Present(values: Values, key: string) {
    Strip(Lookup(values, key)) != ""
  }

  predicate AllPresent(values: Values, keys: seq<string>) {
    forall k :: k in keys ==> Present(values, k)
  }

  function ValidateProfileValues(profile: Profile, values: Values): seq<ValidationError> {
    (if values.Keys <= AllowedKeys(profile) then [] else [UndeclaredKeys])
    + (if AllPresent(values, profile.required) then [] else [MissingRequired])
    + (if profile.oneOf == [] || exists g :: g in profile.oneOf && AllPresent(values, g) then []
       else [NoCompleteAlternative])
  }

  datatype Loaded = Loaded(values: Values) | Unreadable(cause: ParseError) | Invalid(errors: seq<ValidationError>)

  function Restricted(values: Values, keys: set<string>): Values {
    values - (values.Keys - keys)
  }

  /** load_profile after reading the file: values of the environment win over those of the file. */
  function LoadProfile(profile: Profile, text: string, environment: Values): Loaded {
    var parsed := ParseEnvText(text);
    if parsed.Err? then Unreadable(parsed.error)
    else Checked(profile, parsed.values + Usable(profile, environment))
  }

  function Checked(profile: Profile, values: Values): Loaded {
    var errors := ValidateProfileValues(profile, values);
    if errors != [] then Invalid(errors) else Loaded(Restricted(values, AllowedKeys(profile)))
  }

  method LoadProfileLoop(profile: Profile, text: string, environment: Values) returns (r: Loaded)
    ensures r == LoadProfile(profile, text, environment)
  {
    var parsed := ParseEnvTextLoop(text);
    if parsed.Err? { return Unreadable(parsed.error); }
    var values := Overwrite(profile, environment, parsed.values);
    var errors := ValidateProfileValues(profile, values);
    if errors != [] { return Invalid(errors); }
    r := Loaded(Restricted(values, AllowedKeys(profile)));
  }

  lemma OverridesPresent(profile: Profile, values: Values, environment: Values, key: string)
    requires Present(values, key)
    ensures Present(values + Usable(profile, environment), key)
  {
    UsableLookup(profile, values, environment, key);
    StripTwice(Lookup(environment, key));
  }

  lemma UsableLookup(profile: Profile, values: Values, source: Values, key: string)
    ensures var offered := Strip(Lookup(source, key));
      Lookup(values + Usable(profile, source), key)
        == if key in AllowedKeys(profile) && offered != "" then offered else Lookup(values, key)
  {
    UsableAt(profile, source);
  }

  /** Values of the environment keep a valid collection valid. */
  lemma OverridesStayValid(profile: Profile, values: Values, environment: Values)
    requires ValidateProfileValues(profile, values) == []
    ensures ValidateProfileValues(profile, values + Usable(profile, environment)) == []
  {
    var merged := values + Usable(profile, environment);
    forall k | Present(values, k) ensures Present(merged, k) {
      OverridesPresent(profile, values, environment, k);
    }
    UsableAt(profile, environment);
    MorePresent(profile, values, merged);
  }

  lemma MorePresent(profile: Profile, values: Values, merged: Values)
    requires ValidateProfileValues(profile, values) == []
    requires forall k :: Present(values, k) ==> Present(merged, k)
    requires merged.Keys <= values.Keys + AllowedKeys(profile)
    ensures ValidateProfileValues(profile, merged) == []
  {
    ValidIff(profile, values);
    ValidIff(profile, merged);
    if profile.oneOf != [] {
      var g :| g in profile.oneOf && AllPresent(values, g);
      assert AllPresent(merged, g);
    }
  }

  lemma ValidIff(profile: Profile, values: Values)
    ensures ValidateProfileValues(profile, values) == [] <==>
      && values.Keys <= AllowedKeys(profile) && AllPresent(values, profile.required)
      && (profile.oneOf == [] || exists g :: g in profile.oneOf && AllPresent(values, g))
  {
  }

  /** Neither missing nor blank. */
  ghost predicate Filled(values: Values, key: string) {
    key in values && !AllSpace(values[key], IsSpace)
  }

  ghost predicate AllFilled(values: Values, keys: seq<string>) {
    forall i :: 0 <= i < |keys| ==> Filled(values, keys[i])
  }

  lemma PresentIff(values: Values, key: string)
    ensures Present(values, key) <==> Filled(values, key)
  {
    var s := Lookup(values, key);
    TrimIff(s, "", IsSpace);
    if AllSpace(s, IsSpace) {
      assert Padded(s, s, "", "", IsSpace);
    }
    if a, b :| Padded(s, a, "", b, IsSpace) {
      assert s == a + b;
    }
  }

  lemma AllPresentIff(values: Values, keys: seq<string>)
    ensures AllPresent(values, keys) <==> AllFilled(values, keys)
  {
    forall k ensures Present(values, k) <==> Filled(values, k) {
      PresentIff(values, k);
    }
    if AllFilled(values, keys) {
      forall k | k in keys ensures Present(values, k) {
        var i :| 0 <= i < |keys| && keys[i] == k;
      }
    }
  }

  /** Loading, told from the file and the environment: an unreadable file is reported; otherwise the values of
      the file, with the environment's own on top, are returned as they are if they need nothing and hold
      nothing undeclared, and each fault is reported if they do. */
  lemma LoadIff(profile: Profile, text: string, environment: Values)
    ensures var r, parsed := LoadProfile(profile, text, environment), ParseEnvText(text);
      && (parsed.Err? ==> r == Unreadable(parsed.error))
      && (parsed.Ok? ==>
            var values := parsed.values + Usable(profile, environment);
            var undeclared := exists k :: k in parsed.values && k !in AllowedKeys(profile);
            var missing := !AllFilled(values, profile.required);
            var incomplete := profile.oneOf != [] && forall g :: g in profile.oneOf ==> !AllFilled(values, g);
            r == if undeclared || missing || incomplete then
                   Invalid((if undeclared then [UndeclaredKeys] else [])
                           + (if missing then [MissingRequired] else [])
                           + (if incomplete then [NoCompleteAlternative] else []))
                 else Loaded(values))
  {
    var parsed := ParseEnvText(text);
    if parsed.Ok? {
      var values := parsed.values + Usable(profile, environment);
      UsableAt(profile, environment);
      AllPresentIff(values, profile.required);
      forall g | g in profile.oneOf ensures AllPresent(values, g) <==> AllFilled(values, g) {
        AllPresentIff(values, g);
      }
      if values.Keys <= AllowedKeys(profile) {
        RestrictedAll(values, AllowedKeys(profile));
      }
    }
  }

  /** Values accepted for provisioning are accepted again when the written profile is loaded, under every
      environment, and loading returns them with the environment's own values on top. */
  lemma ProvisionedProfileLoads(profile: Profile, sources: seq<string>, environment: Values)
    requires Registered(profile)
    requires ValidateProfileValues(profile, LoadLegacyValues(profile, sources).0) == []
    ensures var values := LoadLegacyValues(profile, sources).0;
      && Serialize(profile, values).Some?
      && LoadProfile(profile, Serialize(profile, values).value, environment)
           == Loaded(values + Usable(profile, environment))
  {
    var values := LoadLegacyValues(profile, sources).0;
    MigrationRoundTrip(profile, sources);
    OverridesStayValid(profile, values, environment);
    ValidLoads(profile, values + Usable(profile, environment));
  }

  lemma ValidLoads(profile: Profile, values: Values)
    requires ValidateProfileValues(profile, values) == []
    ensures Checked(profile, values) == Loaded(values)
  {
    ValidKeys(profile, values);
    RestrictedAll(values, AllowedKeys(profile));
  }

  lemma RestrictedAll(values: Values, keys: set<string>)
    requires values.Keys <= keys
    ensures Restricted(values, keys) == values
  {
  }

  lemma ValidKeys(profile: Profile, values: Values)
    requires ValidateProfileValues(profile, values) == []
    ensures values.Keys <= AllowedKeys(profile)
  {
  }
}
