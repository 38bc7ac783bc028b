/** Characters, trimming and lines of text. */
module Text {
  import opened Spans

  /** White space as the Unicode standard lists it. */
  predicate IsSpace(c: char) {
    var u := c as int;
    || 9 <= u <= 13 || u == 0x20 || u == 0x85 || u == 0xA0 || u == 0x1680
    || 0x2000 <= u <= 0x200A || u == 0x2028 || u == 0x2029 || u == 0x202F || u == 0x205F || u == 0x3000
  }

  predicate IsControl(c: char) {
    var u := c as int;
    u <= 0x1F || 0x7F <= u <= 0x9F
  }

  function UpperChar(c: char): char {
    if 'a' <= c <= 'z' then c - 'a' + 'A' else c
  }

  /** ASCII letters in upper case, everything else as it is. */
  function Upper(s: string): (r: string)
    ensures |r| == |s|
    ensures forall i :: 0 <= i < |s| ==> r[i] == UpperChar(s[i])
  {
    seq(|s|, i requires 0 <= i < |s| => UpperChar(s[i]))
  }

  /** Upper case leaves no small letter, and two texts have the same when they differ in the
      case of ASCII letters alone. */
  lemma UpperIgnoresCase(a: string, b: string)
    ensures forall c <- Upper(a) :: !('a' <= c <= 'z')
    ensures Upper(a) == Upper(b) <==> |a| == |b| && forall i :: 0 <= i < |a| ==> SameButCase(a[i], b[i])
  {
    if Upper(a) == Upper(b) {
      forall i | 0 <= i < |a|
        ensures SameButCase(a[i], b[i])
      {
        assert UpperChar(a[i]) == Upper(a)[i] == Upper(b)[i] == UpperChar(b[i]);
      }
    }
  }

  predicate SameButCase(c: char, d: char) {
    || c == d
    || ('a' <= c <= 'z' && d as int == c as int - 32)
    || ('a' <= d <= 'z' && c as int == d as int - 32)
  }

  // ---------------------------------------------------------------- trimming

  function TrimStart(s: string): string {
    if |s| > 0 && IsSpace(s[0]) then TrimStart(s[1..]) else s
  }

  function TrimEnd(s: string): string {
    if |s| > 0 && IsSpace(s[|s| - 1]) then TrimEnd(s[..|s| - 1]) else s
  }

  function Trim(s: string): string {
    TrimEnd(TrimStart(s))
  }

  /** Trimming the start stops at a character that is not white space. */
  lemma {:induction false} TrimStartStops(a: string, c: char, b: string)
    requires !IsSpace(c)
    ensures TrimStart(a + [c] + b) == TrimStart(a) + [c] + b
  {
    if |a| > 0 && IsSpace(a[0]) {
      assert (a + [c] + b)[1..] == a[1..] + [c] + b;
      TrimStartStops(a[1..], c, b);
    } else if |a| == 0 {
      assert a + [c] + b == [c] + b;
    }
  }

  lemma {:induction false} TrimEndStops(a: string, c: char, b: string)
    requires !IsSpace(c)
    ensures TrimEnd(a + [c] + b) == a + [c] + TrimEnd(b)
  {
    if |b| > 0 && IsSpace(b[|b| - 1]) {
      var whole := a + [c] + b;
      assert whole[..|whole| - 1] == a + [c] + b[..|b| - 1];
      TrimEndStops(a, c, b[..|b| - 1]);
    } else if |b| == 0 {
      assert a + [c] + b == a + [c];
    }
  }

  lemma {:induction false} TrimStartTwice(s: string)
    ensures TrimStart(TrimStart(s)) == TrimStart(s)
  {
    if |s| > 0 && IsSpace(s[0]) {
      TrimStartTwice(s[1..]);
    }
  }

  lemma {:induction false} TrimEndFirst(s: string)
    ensures |TrimEnd(s)| <= |s| && TrimEnd(s) == s[..|TrimEnd(s)|]
  {
    if |s| > 0 && IsSpace(s[|s| - 1]) {
      TrimEndFirst(s[..|s| - 1]);
    }
  }

  /** Text that neither starts nor ends with white space. */
  predicate Tight(s: string) {
    |s| > 0 ==> !IsSpace(s[0]) && !IsSpace(s[|s| - 1])
  }

  lemma TrimTight(s: string)
    requires Tight(s)
    ensures Trim(s) == s
  {
  }

  /** Trimming does not see a white-space character at the end. */
  lemma {:induction false} TrimIgnoresEnd(s: string, c: char)
    requires IsSpace(c)
    ensures Trim(s + [c]) == Trim(s)
  {
    if |s| > 0 && IsSpace(s[0]) {
      assert (s + [c])[1..] == s[1..] + [c];
      TrimIgnoresEnd(s[1..], c);
    } else if |s| > 0 {
      assert (s + [c])[..|s|] == s;
    } else {
      assert s + [c] == [c];
      assert [c][1..] == "";
    }
  }

  // ---------------------------------------------------------------- searching

  /** The first place `c` is at. */
  function IndexOf(s: string, c: char): (i: Option<nat>)
    ensures i.Some? ==> i.value < |s| && s[i.value] == c && c !in s[..i.value]
    ensures i == None <==> c !in s
  {
    if |s| == 0 then None
    else if s[0] == c then Some(0)
    else match IndexOf(s[1..], c)
      case None => None
      case Some(i) =>
        assert s[..i + 1] == [s[0]] + s[1..][..i];
        Some(i + 1)
  }

  lemma {:induction false} IndexOfFirst(a: string, c: char, b: string)
    requires c !in a
    ensures IndexOf(a + [c] + b, c) == Some(|a|)
  {
    if |a| == 0 {
      assert (a + [c] + b)[0] == c;
    } else {
      assert (a + [c] + b)[0] == a[0];
      assert (a + [c] + b)[1..] == a[1..] + [c] + b;
      IndexOfFirst(a[1..], c, b);
    }
  }

  // ---------------------------------------------------------------- lines

  function StripReturn(s: string): string {
    if |s| > 0 && s[|s| - 1] == '\r' then s[..|s| - 1] else s
  }

  /** The lines of a text: each without its line feed and a carriage return
      before that; a last line without a line feed is kept as it is. */
  function Lines(text: string): seq<string>
    decreases |text|
  {
    match IndexOf(text, '\n')
    case None => if |text| == 0 then [] else [text]
    case Some(i) => [StripReturn(text[..i])] + Lines(text[i + 1..])
  }

  /** The lines, each followed by the terminator. */
  function Join(lines: seq<string>, terminator: string): string {
    if |lines| == 0 then "" else lines[0] + terminator + Join(lines[1..], terminator)
  }

  predicate HasCrLf(text: string) {
    exists i :: 0 < i < |text| && text[i - 1] == '\r' && text[i] == '\n'
  }

  /** Any carriage return followed by a line feed makes the file a CRLF file. */
  function Terminator(text: string): string {
    if HasCrLf(text) then "\r\n" else "\n"
  }

  predicate EndedWithNewline(text: string) {
    |text| == 0 || text[|text| - 1] == '\n'
  }

  /** The joined lines, without the last terminator unless `ended`. */
  function Written(lines: seq<string>, terminator: string, ended: bool): string {
    var content := Join(lines, terminator);
    if !ended && |content| >= |terminator| && content[|content| - |terminator|..] == terminator
    then content[..|content| - |terminator|] else content
  }

  predicate IsTerminator(terminator: string) {
    terminator == "\n" || terminator == "\r\n"
  }

  /** What reading back a line gives when it was followed by `terminator`. */
  function ReadBack(line: string, terminator: string): string {
    if terminator == "\n" then StripReturn(line) else line
  }

  lemma {:induction false} JoinSnoc(lines: seq<string>, last: string, terminator: string)
    ensures Join(lines + [last], terminator) == Join(lines, terminator) + last + terminator
  {
    if |lines| == 0 {
      assert [] + [last] == [last];
      assert [last][1..] == [];
    } else {
      assert (lines + [last])[1..] == lines[1..] + [last];
      JoinSnoc(lines[1..], last, terminator);
    }
  }

  lemma LineThenRest(line: string, terminator: string, rest: string)
    requires '\n' !in line && IsTerminator(terminator)
    ensures Lines(line + terminator + rest) == [ReadBack(line, terminator)] + Lines(rest)
  {
    var text := line + terminator + rest;
    if terminator == "\n" {
      IndexOfFirst(line, '\n', rest);
      assert text[..|line|] == line;
      assert text[|line| + 1..] == rest;
    } else {
      var front := line + "\r";
      assert '\n' !in front;
      assert text == front + ['\n'] + rest;
      IndexOfFirst(front, '\n', rest);
      assert text[..|front|] == front;
      assert text[|front| + 1..] == rest;
      assert StripReturn(front) == line;
    }
  }

  function ReadAllBack(lines: seq<string>, terminator: string): (r: seq<string>)
    ensures |r| == |lines|
    ensures forall i :: 0 <= i < |lines| ==> r[i] == ReadBack(lines[i], terminator)
  {
    seq(|lines|, i requires 0 <= i < |lines| => ReadBack(lines[i], terminator))
  }

  predicate NoLineFeeds(lines: seq<string>) {
    forall i :: 0 <= i < |lines| ==> '\n' !in lines[i]
  }

  lemma {:induction false} LinesOfJoin(lines: seq<string>, terminator: string, rest: string)
    requires NoLineFeeds(lines) && IsTerminator(terminator)
    ensures Lines(Join(lines, terminator) + rest) == ReadAllBack(lines, terminator) + Lines(rest)
  {
    hide Lines, ReadBack;
    if |lines| == 0 {
      assert "" + rest == rest;
      assert ReadAllBack(lines, terminator) + Lines(rest) == Lines(rest);
    } else {
      var more := Join(lines[1..], terminator) + rest;
      assert Join(lines, terminator) + rest == lines[0] + terminator + more;
      LineThenRest(lines[0], terminator, more);
      LinesOfJoin(lines[1..], terminator, rest);
      assert ReadAllBack(lines, terminator) == [ReadBack(lines[0], terminator)] + ReadAllBack(lines[1..], terminator);
    }
  }

  /** What `Written` is: all lines terminated, or all but a last one. */
  lemma WrittenForm(lines: seq<string>, terminator: string, ended: bool)
    requires IsTerminator(terminator)
    ensures ended || |lines| == 0 ==> Written(lines, terminator, ended) == Join(lines, terminator)
    ensures !ended && |lines| > 0 ==>
              Written(lines, terminator, ended) == Join(lines[..|lines| - 1], terminator) + lines[|lines| - 1]
  {
    if |lines| > 0 {
      var n := |lines| - 1;
      assert lines == lines[..n] + [lines[n]];
      JoinSnoc(lines[..n], lines[n], terminator);
    }
  }

  /** Reading back what was written, up to carriage returns. */
  lemma OneLine(line: string)
    requires '\n' !in line
    ensures Lines(line) == if |line| == 0 then [] else [line]
  {
  }

  /** Reading back what was written: the lines, but for a carriage return lost
      at the end of a terminated line. */
  lemma LinesOfWritten(lines: seq<string>, terminator: string, ended: bool)
    requires NoLineFeeds(lines) && IsTerminator(terminator)
    requires !ended && |lines| > 0 ==> |lines[|lines| - 1]| > 0
    ensures var read := Lines(Written(lines, terminator, ended));
            && |read| == |lines|
            && forall i :: 0 <= i < |lines| ==> read[i] == lines[i] || read[i] == ReadBack(lines[i], terminator)
  {
    hide Lines, ReadBack, Written, Join;
    WrittenForm(lines, terminator, ended);
    if ended || |lines| == 0 {
      LinesOfJoin(lines, terminator, "");
      OneLine("");
      assert Join(lines, terminator) + "" == Join(lines, terminator);
    } else {
      var n := |lines| - 1;
      LinesOfJoin(lines[..n], terminator, lines[n]);
      OneLine(lines[n]);
    }
  }

  lemma {:induction false} LinesHaveNoLineFeeds(text: string)
    ensures NoLineFeeds(Lines(text))
    decreases |text|
  {
    hide IndexOf;
    match IndexOf(text, '\n')
    case None =>
    case Some(i) => LinesHaveNoLineFeeds(text[i + 1..]);
  }

  /** The last line of a text that does not end with a line feed is not empty. */
  lemma {:induction false} LastLineNotEmpty(text: string)
    requires !EndedWithNewline(text)
    ensures var lines := Lines(text); |lines| > 0 && |lines[|lines| - 1]| > 0
    decreases |text|
  {
    hide IndexOf, StripReturn;
    match IndexOf(text, '\n')
    case None =>
    case Some(i) =>
      var rest := text[i + 1..];
      assert |rest| > 0 && rest[|rest| - 1] == text[|text| - 1];
      LastLineNotEmpty(rest);
      assert Lines(text) == [StripReturn(text[..i])] + Lines(rest);
  }
}
