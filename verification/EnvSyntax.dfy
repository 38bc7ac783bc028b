/** The syntax of an EnvironmentFile: keys, quoted values, definitions and comments. */
module EnvSyntax {
  import opened Spans
  import opened Text

  // ---------------------------------------------------------------- quoting

  predicate IsQuoted(c: char) {
    c == '\\' || c == '"'
  }

  function Escape(s: string): string {
    if |s| == 0 then ""
    else (if IsQuoted(s[0]) then ['\\', s[0]] else [s[0]]) + Escape(s[1..])
  }

  function Unescape(s: string): string {
    if |s| == 0 then ""
    else if s[0] == '\\' && |s| > 1 && IsQuoted(s[1]) then [s[1]] + Unescape(s[2..])
    else [s[0]] + Unescape(s[1..])
  }

  /** Reading a written value gives the value back. */
  lemma {:induction false} UnescapeEscape(s: string)
    ensures Unescape(Escape(s)) == s
  {
    if |s| > 0 {
      UnescapeEscape(s[1..]);
      var rest := Escape(s[1..]);
      if IsQuoted(s[0]) {
        assert Escape(s)[2..] == rest;
      } else {
        assert Escape(s)[1..] == rest;
      }
    }
  }

  lemma {:induction false} EscapeSnoc(s: string, c: char)
    ensures Escape(s + [c]) == Escape(s) + if IsQuoted(c) then ['\\', c] else [c]
  {
    if |s| == 0 {
      assert "" + [c] == [c];
      assert [c][1..] == "";
    } else {
      assert (s + [c])[1..] == s[1..] + [c];
      EscapeSnoc(s[1..], c);
    }
  }

  /** The escaping as it runs. */
  method EscapeValue(s: string) returns (out: string)
    ensures out == Escape(s)
  {
    out := "";
    for i := 0 to |s|
      invariant out == Escape(s[..i])
    {
      assert s[..i + 1] == s[..i] + [s[i]];
      EscapeSnoc(s[..i], s[i]);
      if s[i] == '\\' || s[i] == '"' {
        out := out + ['\\'];
      }
      out := out + [s[i]];
    }
    assert s[..|s|] == s;
  }

  /** The unescaping as it runs, in one pass from left to right. */
  method UnescapeValue(s: string) returns (out: string)
    ensures out == Unescape(s)
  {
    out := "";
    var i := 0;
    assert s[0..] == s;
    while i < |s|
      invariant 0 <= i <= |s|
      invariant out + Unescape(s[i..]) == Unescape(s)
    {
      ghost var rest := s[i..];
      assert rest[1..] == s[i + 1..];
      if s[i] == '\\' && i + 1 < |s| && (s[i + 1] == '\\' || s[i + 1] == '"') {
        assert rest[2..] == s[i + 2..];
        out := out + [s[i + 1]];
        i := i + 2;
      } else {
        out := out + [s[i]];
        i := i + 1;
      }
    }
  }

  // ---------------------------------------------------------------- keys

  predicate IsAlpha(c: char) {
    'a' <= c <= 'z' || 'A' <= c <= 'Z'
  }

  predicate ValidKey(key: string) {
    && |key| > 0
    && (IsAlpha(key[0]) || key[0] == '_')
    && forall i :: 1 <= i < |key| ==> IsAlpha(key[i]) || '0' <= key[i] <= '9' || key[i] == '_'
  }

  lemma ValidKeyChars(key: string)
    requires ValidKey(key)
    ensures '=' !in key && '\n' !in key && '\r' !in key && Tight(key)
    ensures forall c <- key :: !IsSpace(c) && c != '#' && c != ';' && c != '"'
    ensures ValidKey(Upper(key))
  {
  }

  // ---------------------------------------------------------------- reading

  /** A value as the reader gives it. */
  datatype Value =
    | Text(text: string)
    | Words(words: seq<string>)

  /** The white-space separated words of `s`, `word` being the one begun. */
  function SplitFrom(word: string, s: string): seq<string>
    decreases |s|
  {
    if |s| == 0 then (if |word| > 0 then [word] else [])
    else if IsSpace(s[0]) then (if |word| > 0 then [word] else []) + SplitFrom("", s[1..])
    else SplitFrom(word + [s[0]], s[1..])
  }

  function WithoutQuotes(s: string): string {
    if |s| == 0 then "" else (if s[0] == '"' then "" else [s[0]]) + WithoutQuotes(s[1..])
  }

  function ParseValue(raw: string): Value {
    if |raw| >= 2 && raw[0] == '"' && raw[|raw| - 1] == '"' then Text(Unescape(raw[1..|raw| - 1]))
    else
      var clean := WithoutQuotes(raw);
      var words := SplitFrom("", clean);
      if |words| > 1 then Words(words) else Text(clean)
  }

  predicate IsComment(c: char) {
    c == '#' || c == ';'
  }

  /** The definition on a line, if it is one. */
  function ParseLine(line: string): Option<(string, Value)> {
    var trimmed := Trim(line);
    if |trimmed| == 0 || IsComment(trimmed[0]) then None
    else match IndexOf(trimmed, '=')
      case None => None
      case Some(i) => Some((Trim(trimmed[..i]), ParseValue(Trim(trimmed[i + 1..]))))
  }

  /** What the lines define, the last definition of a key winning. */
  function ParseLines(lines: seq<string>): map<string, Value> {
    if |lines| == 0 then map[]
    else
      var before := ParseLines(lines[..|lines| - 1]);
      match ParseLine(lines[|lines| - 1])
      case None => before
      case Some((key, value)) => before[key := value]
  }

  /** What a file's content defines. */
  function ParseContent(content: string): map<string, Value> {
    ParseLines(Lines(content))
  }

  /** The reading as it runs. */
  method ParseConfigContent(content: string) returns (config: map<string, Value>)
    ensures config == ParseContent(content)
  {
    hide Trim, Unescape, SplitFrom, WithoutQuotes, Lines;
    config := map[];
    var lines := Lines(content);
    for i := 0 to |lines|
      invariant config == ParseLines(lines[..i])
    {
      assert lines[..i + 1][..i] == lines[..i];
      var line := Trim(lines[i]);
      if |line| == 0 || line[0] == '#' || line[0] == ';' {
        continue;
      }
      var at := IndexOf(line, '=');
      if at.Some? {
        var key := Trim(line[..at.value]);
        var raw := Trim(line[at.value + 1..]);
        if |raw| >= 2 && raw[0] == '"' && raw[|raw| - 1] == '"' {
          var unquoted := UnescapeValue(raw[1..|raw| - 1]);
          config := config[key := Text(unquoted)];
        } else {
          var clean := WithoutQuotes(raw);
          var words := SplitFrom("", clean);
          config := config[key := if |words| > 1 then Words(words) else Text(clean)];
        }
      }
    }
    assert lines[..|lines|] == lines;
  }

  // ---------------------------------------------------------------- finding keys on lines

  /** The text before the first `=`, trimmed. */
  function DefinedName(line: string): Option<string> {
    match IndexOf(line, '=')
    case None => None
    case Some(i) => Some(Trim(line[..i]))
  }

  /** Whether the line defines `key`, in any case. */
  predicate Active(line: string, key: string) {
    match DefinedName(line)
    case None => false
    case Some(name) => Upper(name) == key
  }

  /** Whether the line is a comment that would define `key` without its comment sign. */
  predicate Commented(line: string, key: string) {
    var start := TrimStart(line);
    |start| > 0 && IsComment(start[0]) && Active(start[1..], key)
  }

  lemma SplitAtEquals(line: string) returns (before: string, after: string)
    requires '=' in line
    ensures line == before + ['='] + after && '=' !in before
    ensures IndexOf(line, '=') == Some(|before|)
  {
    var i := IndexOf(line, '=').value;
    before, after := line[..i], line[i + 1..];
  }

  lemma {:induction false} TrimStartSuffix(s: string)
    ensures |TrimStart(s)| <= |s| && TrimStart(s) == s[|s| - |TrimStart(s)|..]
    ensures forall i :: 0 <= i < |s| - |TrimStart(s)| ==> IsSpace(s[i])
  {
    if |s| > 0 && IsSpace(s[0]) {
      TrimStartSuffix(s[1..]);
    }
  }

  /** Trimming a line trims the name before its `=` and the value after it. */
  lemma TrimAroundEquals(before: string, after: string)
    requires '=' !in before
    ensures var trimmed := Trim(before + ['='] + after);
            && trimmed == TrimStart(before) + ['='] + TrimEnd(after)
            && IndexOf(trimmed, '=') == Some(|TrimStart(before)|)
            && Trim(trimmed[..|TrimStart(before)|]) == Trim(before)
            && trimmed[|TrimStart(before)| + 1..] == TrimEnd(after)
  {
    TrimStartStops(before, '=', after);
    TrimEndStops(TrimStart(before), '=', after);
    TrimStartSuffix(before);
    IndexOfFirst(TrimStart(before), '=', TrimEnd(after));
    TrimStartTwice(before);
    var trimmed := TrimStart(before) + ['='] + TrimEnd(after);
    assert trimmed[..|TrimStart(before)|] == TrimStart(before);
    assert trimmed[|TrimStart(before)| + 1..] == TrimEnd(after);
  }

  /** A definition's key is the name before the `=`. */
  lemma ParsedName(line: string)
    requires ParseLine(line).Some?
    ensures DefinedName(line) == Some(ParseLine(line).value.0)
  {
    if '=' in line {
      var before, after := SplitAtEquals(line);
      TrimAroundEquals(before, after);
      assert line[..|before|] == before;
    } else {
      TrimStartSuffix(line);
      TrimEndFirst(TrimStart(line));
      assert '=' !in Trim(line);
    }
  }

  /** A line that names a valid key before its `=` is a definition of it. */
  lemma NamedIsParsed(line: string, key: string)
    requires Active(line, key) && ValidKey(key)
    ensures ParseLine(line).Some? && Upper(ParseLine(line).value.0) == key
  {
    hide TrimStart, TrimEnd, IndexOf, ParseValue;
    var before, after := SplitAtEquals(line);
    TrimAroundEquals(before, after);
    assert line[..|before|] == before;
    var name := Trim(before);
    assert |name| == |key| > 0;
    TrimEndFirst(TrimStart(before));
    assert name[0] == TrimStart(before)[0];
    assert UpperChar(name[0]) == key[0];
    assert Trim(line)[0] == name[0];
  }

  /** A definition of a key other than `key` is not active for it, and the other way round. */
  lemma ActiveIsParsed(line: string, key: string)
    requires ValidKey(key)
    ensures Active(line, key) <==> ParseLine(line).Some? && Upper(ParseLine(line).value.0) == key
  {
    if Active(line, key) {
      NamedIsParsed(line, key);
    }
    if ParseLine(line).Some? {
      ParsedName(line);
    }
  }

  /** A line is not both a definition of a key and a comment naming one. */
  lemma ActiveNotCommented(line: string, key: string, other: string)
    requires Active(line, key) && ValidKey(key)
    ensures !Commented(line, other)
  {
    var before, after := SplitAtEquals(line);
    assert line[..|before|] == before;
    TrimStartStops(before, '=', after);
    TrimEndFirst(TrimStart(before));
    var name := Trim(before);
    assert |name| == |key| > 0;
    assert UpperChar(name[0]) == key[0];
    assert TrimStart(line)[0] == name[0];
  }

  /** The lines that define nothing: blank ones, those whose first sign is that of a comment,
      and those without an equals sign. */
  lemma IgnoredLines(line: string)
    ensures ParseLine(line) == None <==>
              || '=' !in line
              || exists n :: 0 <= n < |line| && (forall i :: 0 <= i < n ==> IsSpace(line[i]))
                             && (line[n] == '#' || line[n] == ';')
  {
    TrimStartSuffix(line);
    TrimEndFirst(TrimStart(line));
    var n := |line| - |TrimStart(line)|;
    if '=' in line {
      var before, after := SplitAtEquals(line);
      TrimAroundEquals(before, after);
      FirstAfterTrim(line);
      assert Trim(line)[0] == line[n];
      if m :| 0 <= m < |line| && (forall i :: 0 <= i < m ==> IsSpace(line[i])) && (line[m] == '#' || line[m] == ';') {
        TrimStartAt(line, m);
      }
    } else {
      assert forall c <- Trim(line) :: c in line;
    }
  }

  /** Trimming keeps the first character that is not white space. */
  lemma FirstAfterTrim(line: string)
    requires |Trim(line)| > 0
    ensures |TrimStart(line)| > 0 && Trim(line)[0] == TrimStart(line)[0]
  {
    TrimEndFirst(TrimStart(line));
  }

  /** A comment names a key exactly when what follows its sign would define the key. */
  lemma CommentWouldDefine(line: string, key: string)
    requires ValidKey(key)
    ensures Commented(line, key) <==>
              exists n :: 0 <= n < |line| && (forall i :: 0 <= i < n ==> IsSpace(line[i])) && OpensComment(line, n, key)
  {
    TrimStartSuffix(line);
    var n := |line| - |TrimStart(line)|;
    if Commented(line, key) {
      assert line[n + 1..] == TrimStart(line)[1..];
      ActiveIsParsed(line[n + 1..], key);
      assert OpensComment(line, n, key);
    }
    if m :| 0 <= m < |line| && (forall i :: 0 <= i < m ==> IsSpace(line[i])) && OpensComment(line, m, key) {
      TrimStartAt(line, m);
      ActiveIsParsed(line[m + 1..], key);
      assert TrimStart(line)[1..] == line[m + 1..];
    }
  }

  /** At `n` a sign begins a comment, and what follows defines the key. */
  predicate OpensComment(line: string, n: int, key: string)
    requires 0 <= n < |line|
  {
    && (line[n] == '#' || line[n] == ';')
    && ParseLine(line[n + 1..]).Some? && Upper(ParseLine(line[n + 1..]).value.0) == key
  }

  lemma {:induction false} TrimStartAt(s: string, n: nat)
    requires n < |s| && !IsSpace(s[n]) && forall i :: 0 <= i < n ==> IsSpace(s[i])
    ensures TrimStart(s) == s[n..]
  {
    if n > 0 {
      TrimStartAt(s[1..], n - 1);
      assert s[1..][n - 1..] == s[n..];
    }
  }

  /** An unset key's line is a comment that names the key. */
  lemma UnsetNamesKey(e: Entry)
    requires AcceptedEntry(e) && e.value == None
    ensures Render(e) == "#" + e.key + "=" && Commented(Render(e), e.key)
  {
    var line := Render(e);
    TrimTight(line);
    assert TrimStart(line) == line;
    var rest := line[1..];
    assert rest == e.key + ['='] + "";
    DefinitionParses(e.key, "");
  }

  /** Carriage returns at the end of a line are not seen. */
  lemma ParseIgnoresReturn(line: string)
    ensures ParseLine(StripReturn(line)) == ParseLine(line)
  {
    if |line| > 0 && line[|line| - 1] == '\r' {
      assert line == line[..|line| - 1] + ['\r'];
      TrimIgnoresEnd(line[..|line| - 1], '\r');
    }
  }

  // ---------------------------------------------------------------- writing

  /** One accepted entry: its upper-case key, and its value unless it is to be unset. */
  datatype Entry = Entry(key: string, value: Option<string>)

  function Render(e: Entry): string {
    match e.value
    case Some(value) => e.key + "=\"" + Escape(value) + "\""
    case None => "#" + e.key + "="
  }

  /** A value without control characters. */
  predicate Writable(value: string) {
    forall c <- value :: !IsControl(c)
  }

  predicate AcceptedEntry(e: Entry) {
    ValidKey(e.key) && Upper(e.key) == e.key && (e.value.Some? ==> Writable(e.value.value))
  }

  lemma {:induction false} EscapedChars(s: string)
    ensures forall c <- Escape(s) :: c in s || c == '\\'
  {
    if |s| > 0 {
      EscapedChars(s[1..]);
      assert Escape(s) == (if IsQuoted(s[0]) then ['\\', s[0]] else [s[0]]) + Escape(s[1..]);
      assert forall c <- s[1..] :: c in s;
      assert s[0] in s;
    }
  }

  /** A rendered line is one line. */
  lemma RenderedIsLine(e: Entry)
    requires AcceptedEntry(e)
    ensures '\n' !in Render(e) && '\r' !in Render(e) && |Render(e)| > 0
  {
    ValidKeyChars(e.key);
    if e.value.Some? {
      EscapedChars(e.value.value);
      assert IsControl('\n') && IsControl('\r');
      assert forall c <- Render(e) :: c in e.key || c == '=' || c == '"' || c in Escape(e.value.value);
    } else {
      assert forall c <- Render(e) :: c == '#' || c in e.key || c == '=';
    }
  }

  /** A line starting with a valid key and `=` defines that key. */
  lemma DefinitionParses(key: string, after: string)
    requires ValidKey(key)
    ensures ParseLine(key + ['='] + after) == Some((key, ParseValue(Trim(TrimEnd(after)))))
    ensures DefinedName(key + ['='] + after) == Some(key)
  {
    hide ValidKey, ParseValue, TrimStart, TrimEnd;
    ValidKeyChars(key);
    var line := key + ['='] + after;
    IndexOfFirst(key, '=', after);
    TrimAroundEquals(key, after);
    TrimTight(key);
    assert line[..|key|] == key;
    StartOfKey(key);
    assert Trim(line)[0] == key[0];
  }

  lemma StartOfKey(key: string)
    requires ValidKey(key)
    ensures TrimStart(key) == key && !IsComment(key[0])
  {
    ValidKeyChars(key);
    assert key[0] in key;
  }

  lemma QuotedParses(value: string)
    ensures var quoted := "\"" + Escape(value) + "\"";
            TrimEnd(quoted) == quoted && Trim(quoted) == quoted && ParseValue(quoted) == Text(value)
  {
    var quoted := "\"" + Escape(value) + "\"";
    assert Tight(quoted);
    TrimTight(quoted);
    assert quoted[1..|quoted| - 1] == Escape(value);
    UnescapeEscape(value);
  }

  /** A written value is read back as it is, under its key. */
  lemma RenderedParses(e: Entry)
    requires AcceptedEntry(e) && e.value.Some?
    ensures ParseLine(Render(e)) == Some((e.key, Text(e.value.value)))
    ensures DefinedName(Render(e)) == Some(e.key)
  {
    hide ParseLine, DefinedName, Trim, TrimEnd, ParseValue, Escape;
    var quoted := "\"" + Escape(e.value.value) + "\"";
    assert Render(e) == e.key + ['='] + quoted;
    DefinitionParses(e.key, quoted);
    QuotedParses(e.value.value);
  }

  /** An unset key's line defines nothing. */
  lemma UnsetDefinesNothing(e: Entry, key: string)
    requires AcceptedEntry(e) && e.value == None && ValidKey(key)
    ensures ParseLine(Render(e)) == None && !Active(Render(e), key)
  {
    ValidKeyChars(e.key);
    var before := "#" + e.key;
    assert Render(e) == before + ['='] + "";
    IndexOfFirst(before, '=', "");
    assert Tight(before);
    TrimTight(before);
    assert Render(e)[..|before|] == before;
    assert Upper(before)[0] == '#';
    assert Tight(Render(e));
    TrimTight(Render(e));
  }

  const APPEND_MARKER := "# --- Added by edgefirst-websrv ---"

  predicate IsMarker(line: string) {
    Trim(line) == APPEND_MARKER
  }

  lemma MarkerChars()
    ensures '=' !in APPEND_MARKER && '\n' !in APPEND_MARKER && '\r' !in APPEND_MARKER
  {
  }

  lemma MarkerShape()
    ensures |APPEND_MARKER| > 0 && APPEND_MARKER[0] == '#' && Tight(APPEND_MARKER)
  {
  }

  lemma CommentParses(line: string)
    requires |line| > 0 && line[0] == '#' && Tight(line) && '=' !in line
    ensures Trim(line) == line && ParseLine(line) == None && DefinedName(line) == None
  {
    TrimTight(line);
  }

  lemma EmptyParses()
    ensures Trim("") == "" && ParseLine("") == None && DefinedName("") == None
  {
  }

  /** The marker and the empty line before it define nothing. */
  lemma MarkerDefinesNothing()
    ensures ParseLine(APPEND_MARKER) == None && DefinedName(APPEND_MARKER) == None
    ensures ParseLine("") == None && DefinedName("") == None
    ensures '\n' !in APPEND_MARKER && '\r' !in APPEND_MARKER && |APPEND_MARKER| > 0
    ensures IsMarker(APPEND_MARKER) && !IsMarker("")
  {
    hide Trim, ParseLine, DefinedName, Tight;
    MarkerChars();
    MarkerShape();
    CommentParses(APPEND_MARKER);
    EmptyParses();
  }
}
