/** Which files every accepted edit settles on: a file can only name so many keys, so
    there are always keys left that an edit would append. */
module EnvFreshKeys {
  import opened Spans
  import opened Text
  import opened EnvSyntax
  import opened EnvPlan
  import opened EnvStable
  import opened EnvIdempotent
  import opened EnvValidate

  // ---------------------------------------------------------------- the keys a file names

  function CommentName(line: string): Option<string> {
    var start := TrimStart(line);
    if |start| > 0 && IsComment(start[0]) then DefinedName(start[1..]) else None
  }

  function Named(line: string): set<string> {
    (match DefinedName(line) case None => {} case Some(name) => {Upper(name)})
    + (match CommentName(line) case None => {} case Some(name) => {Upper(name)})
  }

  function AllNamed(lines: seq<string>): set<string> {
    if |lines| == 0 then {} else AllNamed(lines[..|lines| - 1]) + Named(lines[|lines| - 1])
  }

  lemma {:induction false} NamesAreFew(lines: seq<string>)
    ensures |AllNamed(lines)| <= 2 * |lines|
  {
    if |lines| > 0 {
      var n := |lines| - 1;
      NamesAreFew(lines[..n]);
      var a, b := AllNamed(lines[..n]), Named(lines[n]);
      assert |b| <= 2;
      assert |a + b| == |a| + |b| - |a * b|;
    }
  }

  /** A key that no line names is appended. */
  lemma UnnamedLine(line: string, key: string)
    requires key !in Named(line)
    ensures !Active(line, key) && !Commented(line, key)
  {
  }

  lemma {:induction false} UnnamedIsNew(lines: seq<string>, key: string)
    requires key !in AllNamed(lines)
    ensures !HasActive(lines, key) && LastComment(lines, key) == None
  {
    hide Active, Commented, Named;
    if |lines| > 0 {
      var n := |lines| - 1;
      UnnamedIsNew(lines[..n], key);
      UnnamedLine(lines[n], key);
      assert forall i :: 0 <= i < n ==> lines[i] == lines[..n][i];
    }
  }

  lemma {:induction false} LinesAreFew(text: string)
    ensures |Lines(text)| <= |text|
    decreases |text|
  {
    match IndexOf(text, '\n')
    case None =>
    case Some(i) => LinesAreFew(text[i + 1..]);
  }

  // ---------------------------------------------------------------- enough keys

  function Double(n: nat): nat {
    if n == 0 then 1 else 2 * Double(n - 1)
  }

  /** The keys tell numbers below `Double(width)` apart. */
  function KeyNo(i: nat, width: nat): (key: string)
    ensures |key| == width + 1 && key[0] == 'K'
    ensures forall c <- key :: c == 'K' || c == 'A' || c == 'B'
  {
    if width == 0 then "K" else KeyNo(i / 2, width - 1) + if i % 2 == 0 then "A" else "B"
  }

  lemma {:induction false} KeysDiffer(i: nat, j: nat, width: nat)
    requires i < Double(width) && j < Double(width) && KeyNo(i, width) == KeyNo(j, width)
    ensures i == j
  {
    if width > 0 {
      var a, b := KeyNo(i, width), KeyNo(j, width);
      assert a[..width] == KeyNo(i / 2, width - 1) && b[..width] == KeyNo(j / 2, width - 1);
      assert a[width] == b[width];
      KeysDiffer(i / 2, j / 2, width - 1);
    }
  }

  function FirstKeys(n: nat, width: nat): set<string> {
    if n == 0 then {} else FirstKeys(n - 1, width) + {KeyNo(n - 1, width)}
  }

  predicate IsKeyBelow(key: string, n: nat, width: nat) {
    exists i: nat :: i < n && key == KeyNo(i, width)
  }

  lemma KeyBelowMore(key: string, n: nat, width: nat)
    ensures IsKeyBelow(key, n + 1, width) <==> IsKeyBelow(key, n, width) || key == KeyNo(n, width)
  {
    hide KeyNo;
    if IsKeyBelow(key, n, width) {
      var i: nat :| i < n && key == KeyNo(i, width);
      assert i < n + 1;
    }
  }

  lemma {:induction false} FirstKeysMembers(n: nat, width: nat)
    ensures forall key :: key in FirstKeys(n, width) <==> IsKeyBelow(key, n, width)
  {
    hide IsKeyBelow, KeyNo;
    forall key
      ensures key in FirstKeys(n, width) <==> IsKeyBelow(key, n, width)
    {
      if n > 0 {
        FirstKeysMembers(n - 1, width);
        KeyBelowMore(key, n - 1, width);
      } else {
        NoKeyBelow(key, width);
      }
    }
  }

  lemma NoKeyBelow(key: string, width: nat)
    ensures !IsKeyBelow(key, 0, width)
  {
  }

  lemma NewKey(n: nat, width: nat)
    requires n < Double(width)
    ensures KeyNo(n, width) !in FirstKeys(n, width)
  {
    hide KeyNo, FirstKeys, Double;
    FirstKeysMembers(n, width);
    forall i: nat | i < n
      ensures KeyNo(n, width) != KeyNo(i, width)
    {
      if KeyNo(n, width) == KeyNo(i, width) {
        KeysDiffer(n, i, width);
      }
    }
  }

  lemma {:induction false} FirstKeysCount(n: nat, width: nat)
    requires n <= Double(width)
    ensures |FirstKeys(n, width)| == n
  {
    if n > 0 {
      FirstKeysCount(n - 1, width);
      NewKey(n - 1, width);
    }
  }

  const WIDTH := 67

  lemma WideEnough()
    ensures Double(WIDTH) >= 2 * U64_MAX + 2
  {
    assert Double(2) == 2 * Double(1) == 4;
    DoubleAdds(2, 2);
    DoubleAdds(4, 4);
    DoubleAdds(8, 8);
    DoubleAdds(16, 16);
    DoubleAdds(32, 32);
    assert Double(64) == 0x1_0000_0000_0000_0000;
    assert Double(67) == 2 * Double(66) == 4 * Double(65) == 8 * Double(64);
  }

  lemma {:induction false} DoubleAdds(a: nat, b: nat)
    ensures Double(a + b) == Double(a) * Double(b)
  {
    if b > 0 {
      DoubleAdds(a, b - 1);
      assert Double(a + b) == 2 * (Double(a) * Double(b - 1));
    }
  }

  /** A key that validation accepts. */
  lemma KeyNoAllowed(i: nat)
    ensures var key := KeyNo(i, WIDTH);
            KeyReject(key) == None && Upper(key) == key
  {
    var key := KeyNo(i, WIDTH);
    assert forall k :: 0 <= k < |key| ==> key[k] in key;
    assert Upper(key) == key;
    assert !("LD_" <= key) by {
      assert "LD_"[0] == 'L';
    }
    assert forall name <- FORBIDDEN_KEYS :: |name| < |key|;
  }

  lemma Leftover(all: set<string>, taken: set<string>)
    requires |all| >= |taken| + 2
    ensures exists a, b :: a in all && b in all && a !in taken && b !in taken && a != b
  {
    var left := all - taken;
    assert |all| == |left| + |all * taken|;
    Fewer(all * taken, taken);
    var a :| a in left;
    assert |left - {a}| > 0;
    var b :| b in left - {a};
  }

  lemma Fewer<T>(a: set<T>, b: set<T>)
    requires a <= b
    ensures |a| <= |b|
  {
    if x :| x in a {
      Fewer(a - {x}, b - {x});
    }
  }

  /** Two new keys that validation accepts. */
  lemma TwoNewKeys(original: string) returns (a: string, b: string)
    requires |original| <= U64_MAX
    ensures a != b && a !in AllNamed(Lines(original)) && b !in AllNamed(Lines(original))
    ensures KeyReject(a) == KeyReject(b) == None && Upper(a) == a && Upper(b) == b
  {
    hide KeyReject, Upper, AllNamed, FirstKeys, Double;
    var lines := Lines(original);
    var n := 2 * |lines| + 2;
    NamesAreFew(lines);
    LinesAreFew(original);
    WideEnough();
    FirstKeysCount(n, WIDTH);
    FirstKeysMembers(n, WIDTH);
    Leftover(FirstKeys(n, WIDTH), AllNamed(lines));
    a, b :| a in FirstKeys(n, WIDTH) && b in FirstKeys(n, WIDTH) && a !in AllNamed(lines) && b !in AllNamed(lines)
        && a != b;
    var i: nat :| i < n && a == KeyNo(i, WIDTH);
    var j: nat :| j < n && b == KeyNo(j, WIDTH);
    KeyNoAllowed(i);
    KeyNoAllowed(j);
  }

  // ---------------------------------------------------------------- every edit

  /** Whether repeating the edit changes nothing. */
  predicate Settles(original: string, entries: seq<Entry>) {
    Content(Content(original, entries), entries) == Content(original, entries)
  }

  /** Appending two keys exposes a carriage return that a file without CRLF ends in. */
  lemma AppendingExposes(original: string, entries: seq<Entry>)
    requires !HasCrLf(original) && EndsInReturn(original) && Accepted(entries) && |entries| == 2
    requires forall e <- entries :: e.value.Some? && e.key !in AllNamed(Lines(original))
    ensures ExposesReturn(original, entries)
  {
    hide Lines, HasCrLf, Accepted, AllNamed, MarkerLines, Render, HasActive, LastComment;
    var lines := Lines(original);
    LastKept(original, entries);
    forall i | 0 <= i < 2
      ensures IsAppended(lines, entries[i])
    {
      assert entries[i] in entries;
      UnnamedIsNew(lines, entries[i].key);
    }
    BothAppended(lines, entries);
    NotOwned(lines, entries);
  }

  lemma BothAppended(lines: seq<string>, entries: seq<Entry>)
    requires |entries| == 2 && IsAppended(lines, entries[0]) && IsAppended(lines, entries[1])
    ensures |Appended(lines, entries)| == 2
  {
    hide IsAppended;
    assert entries[..1] == [entries[0]];
    assert entries[..1][..0] == [];
    assert Appended(lines, entries[..1]) == [entries[0]];
  }

  lemma NotOwned(lines: seq<string>, entries: seq<Entry>)
    requires |lines| > 0 && forall e <- entries :: e.key !in AllNamed(lines)
    ensures OwnerOf(lines[|lines| - 1], entries) == None
  {
    var last := lines[|lines| - 1];
    forall e | e in entries
      ensures !Active(last, e.key)
    {
      assert e.key !in Named(last);
    }
  }

  ghost predicate ValidUpdate(updates: seq<Update>, entries: seq<Entry>) {
    Offenders(updates, |updates|) == {} && EntriesOf(entries, updates)
  }

  ghost predicate AllSettle(original: string) {
    forall updates: seq<Update>, entries: seq<Entry> :: ValidUpdate(updates, entries) ==> Settles(original, entries)
  }

  lemma OneDoesNot(original: string) returns (updates: seq<Update>, entries: seq<Entry>)
    requires |original| <= U64_MAX && !HasCrLf(original) && EndsInReturn(original)
    ensures ValidUpdate(updates, entries) && !Settles(original, entries)
  {
    hide HasCrLf, Content, Offenders, EntriesOf, Accepted, ExposesReturn, KeyReject, Upper, AllNamed, Lines;
    var a, b := TwoNewKeys(original);
    updates := [(a, JString("")), (b, JString(""))];
    entries := [Entry(a, Some("")), Entry(b, Some(""))];
    NewKeysAccepted(a, b);
    EntriesAccepted(entries, updates);
    AppendingExposes(original, entries);
    EditIdempotentUnless(original, entries);
  }

  /** Every accepted update settles a file in one save if and only if the file has a
      CRLF or does not end in a carriage return. */
  lemma EveryEditSettles(original: string)
    requires |original| <= U64_MAX
    ensures AllSettle(original) <==> HasCrLf(original) || !EndsInReturn(original)
  {
    hide HasCrLf, Content, Offenders, EntriesOf, Accepted;
    if HasCrLf(original) || !EndsInReturn(original) {
      forall updates: seq<Update>, entries: seq<Entry> | ValidUpdate(updates, entries)
        ensures Settles(original, entries)
      {
        EntriesAccepted(entries, updates);
        EditIdempotentUnless(original, entries);
      }
    } else {
      var updates, entries := OneDoesNot(original);
    }
  }

  lemma NewKeysAccepted(a: string, b: string)
    requires a != b && KeyReject(a) == KeyReject(b) == None && Upper(a) == a && Upper(b) == b
    ensures var updates: seq<Update> := [(a, JString("")), (b, JString(""))];
            Offenders(updates, |updates|) == {} && EntriesOf([Entry(a, Some("")), Entry(b, Some(""))], updates)
  {
    hide KeyReject;
    var updates: seq<Update> := [(a, JString("")), (b, JString(""))];
    assert ValueOf(JString("")) == Ok(Some(""));
    assert !Offends(updates, 2, 0) && !Offends(updates, 2, 1);
  }

  /** A small such file: a new key gives it lines after its carriage return. */
  lemma LostReturn()
    ensures var entries := [Entry("B", Some("2"))];
            Accepted(entries) && ExposesReturn("A=1\r", entries) && !Settles("A=1\r", entries)
  {
    hide Content, Trim, ParseLine, IsMarker, AddedAfterLast;
    var original, entries := "A=1\r", [Entry("B", Some("2"))];
    OnlyA();
    assert Accepted(entries);
    assert Lines(original) == [original];
    AddsThree(entries);
    EditIdempotentUnless(original, entries);
  }

  lemma OnlyA()
    ensures Lines("A=1\r") == ["A=1\r"] && !HasCrLf("A=1\r")
    ensures DefinedName("A=1\r") == Some("A") && CommentName("A=1\r") == None
    ensures forall key :: key in AllNamed(["A=1\r"]) ==> key == "A"
  {
    var line := "A=1\r";
    assert line == "A" + ['='] + "1\r";
    IndexOfFirst("A", '=', "1\r");
    assert line[..1] == "A";
    TrimTight("A");
    assert ["A=1\r"][..0] == [];
    assert Upper("A") == "A";
  }

  lemma AddsThree(entries: seq<Entry>)
    requires entries == [Entry("B", Some("2"))]
    ensures OwnerOf("A=1\r", entries) == None && |AddedAfterLast(["A=1\r"], entries)| == 3
  {
    hide HasActive, LastComment, AllNamed, IsMarker, Render, EmitBody, DefinedName, CommentName, Lines, HasCrLf;
    var lines := ["A=1\r"];
    OnlyA();
    UnnamedIsNew(lines, "B");
    NotOwned(lines, entries);
    assert entries[..0] == [];
    assert Appended(lines, entries[..0]) == [];
    assert Appended(lines, entries) == entries;
    assert InsertedAfter(lines, entries, 0) == None;
    EqualsIsNoMarker("A=1\r");
    BodyNotEmpty(lines, entries, 1);
    assert |MarkerLines(lines, EmitBody(lines, entries, 1))| == 2;
  }
}
