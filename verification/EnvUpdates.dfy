/** What a submitted update comes to: which ones are refused, and what is read of the
    others once they have been saved. */
module EnvUpdates {
  import opened Spans
  import opened Text
  import opened EnvSyntax
  import opened EnvPlan
  import opened EnvReport
  import opened EnvValidate
  import opened EnvValues

  // ---------------------------------------------------------------- which updates are refused

  /** The name of a setting: letters, digits and underscores, at most 128 of them and no
      digit first; and not what a loader or a language runtime reads, in any case. */
  predicate SettingName(key: string) {
    && 0 < |key| <= 128
    && (forall c <- key :: c == '_' || 'A' <= UpperChar(c) <= 'Z' || '0' <= c <= '9')
    && !('0' <= key[0] <= '9')
    && !("LD_" <= Upper(key))
    && Upper(key) !in FORBIDDEN_KEYS
  }

  /** The text of a string, number or boolean. */
  predicate IsScalar(value: Json, text: string) {
    match value
    case JString(s) => text == s
    case JNumber(rendered) => text == rendered
    case JBool(b) => text == if b then "true" else "false"
    case _ => false
  }

  /** The items' texts, none of which has white space in it. */
  predicate AreItems(items: seq<Json>, words: seq<string>) {
    && |words| == |items|
    && forall i :: 0 <= i < |items| ==> IsScalar(items[i], words[i]) && forall c <- words[i] :: !IsSpace(c)
  }

  predicate Printable(text: string) {
    forall c <- text :: c as int >= 0x20 && !(0x7F <= c as int <= 0x9F)
  }

  /** What is written for a value: an array's items with one space between any two of them. */
  ghost predicate WrittenAs(value: Json, text: string) {
    if value.JArray? then exists words :: AreItems(value.items, words) && text == Linked(words, " ")
    else IsScalar(value, text)
  }

  lemma {:induction false} LinkedMore(words: seq<string>, word: string)
    requires |words| > 0
    ensures Linked(words + [word], " ") == Linked(words, " ") + " " + word
  {
    if |words| == 1 {
      assert (words + [word])[1..] == [word];
    } else {
      assert (words + [word])[1..] == words[1..] + [word];
      LinkedMore(words[1..], word);
    }
  }

  lemma {:induction false} JoinedIsLinked(words: seq<string>)
    ensures JoinWords(words) == Linked(words, " ")
  {
    if |words| > 1 {
      var n := |words| - 1;
      JoinedIsLinked(words[..n]);
      LinkedMore(words[..n], words[n]);
      assert words[..n] + [words[n]] == words;
    }
  }

  /** The items of an array are taken exactly when each is a scalar without white space. */
  lemma {:induction false} ItemsTaken(items: seq<Json>)
    ensures match CoerceItems(items)
            case Ok(words) => AreItems(items, words)
            case Err(_) => forall words :: !AreItems(items, words)
    ensures forall words :: AreItems(items, words) ==> CoerceItems(items) == Ok(words)
  {
    if |items| > 0 {
      var n := |items| - 1;
      ItemsTaken(items[..n]);
      forall words | AreItems(items, words)
        ensures CoerceItems(items) == Ok(words)
      {
        assert AreItems(items[..n], words[..n]);
        assert words == words[..n] + [words[n]];
        assert !HasSpace(words[n]);
      }
      match CoerceItems(items)
      case Ok(words) =>
        assert words[..n] + [words[n]] == words;
      case Err(_) =>
    }
  }

  /** Whether a value can be written, or unsets its key. */
  ghost predicate Acceptable(value: Json) {
    value.JNull? || exists text :: WrittenAs(value, text) && Printable(text)
  }

  lemma PrintableIsWritable(text: string)
    ensures Printable(text) <==> Writable(text)
  {
    forall c | c in text
      ensures IsControl(c) <==> !(c as int >= 0x20 && !(0x7F <= c as int <= 0x9F))
    {
    }
  }

  lemma ValueTaken(value: Json)
    ensures match ValueOf(value)
            case Ok(None) => value.JNull?
            case Ok(Some(text)) => WrittenAs(value, text) && Printable(text)
            case Err(_) => !Acceptable(value)
    ensures value.JNull? ==> ValueOf(value) == Ok(None)
    ensures forall text :: WrittenAs(value, text) ==> Coerce(value) == Ok(Some(text))
  {
    hide IsControl, IsSpace, Linked, JoinWords;
    forall text | WrittenAs(value, text)
      ensures Writable(text) <==> Printable(text)
    {
      PrintableIsWritable(text);
    }
    match value
    case JArray(items) =>
      ItemsTaken(items);
      forall words | AreItems(items, words)
        ensures JoinWords(words) == Linked(words, " ")
      {
        JoinedIsLinked(words);
      }
    case _ =>
  }

  lemma KeyTaken(key: string)
    ensures KeyReject(key) == None <==> SettingName(key)
  {
    hide Forbidden;
    if SettingName(key) {
      forall i | 0 <= i < |key|
        ensures IsAlpha(key[i]) || '0' <= key[i] <= '9' || key[i] == '_'
      {
        assert key[i] in key;
      }
    }
    if ValidKey(key) {
      forall c | c in key
        ensures c == '_' || 'A' <= UpperChar(c) <= 'Z' || '0' <= c <= '9'
      {
        var i :| 0 <= i < |key| && key[i] == c;
      }
    }
    ForbiddenNames(key);
  }

  lemma ForbiddenNames(key: string)
    ensures Forbidden(key) <==> "LD_" <= Upper(key) || Upper(key) in FORBIDDEN_KEYS
  {
  }

  /** Updates are let through if and only if every key names a setting, every value can be
      written, and no two keys are the same in upper case. */
  lemma LetThroughIff(updates: seq<Update>)
    ensures Offenders(updates, |updates|) == {} <==>
            && (forall i :: 0 <= i < |updates| ==> SettingName(updates[i].0) && Acceptable(updates[i].1))
            && (forall i, j :: 0 <= i < j < |updates| ==> Upper(updates[i].0) != Upper(updates[j].0))
  {
    hide KeyReject, ValueOf, SettingName, Acceptable;
    OffendersAll(updates, |updates|);
    forall i | 0 <= i < |updates|
      ensures KeyAllowed(updates[i]) <==> SettingName(updates[i].0)
      ensures ValueOf(updates[i].1).Ok? <==> Acceptable(updates[i].1)
    {
      KeyTaken(updates[i].0);
      ValueTaken(updates[i].1);
      NullAcceptable(updates[i].1);
    }
    if Offenders(updates, |updates|) == {} {
      forall i, j | 0 <= i < j < |updates|
        ensures Upper(updates[i].0) != Upper(updates[j].0)
      {
        assert !Offends(updates, |updates|, i) && !Offends(updates, |updates|, j);
        assert !Collide(updates[i], updates[j]);
      }
    }
  }

  lemma NullAcceptable(value: Json)
    ensures value.JNull? ==> Acceptable(value)
    ensures forall text :: WrittenAs(value, text) && Printable(text) ==> Acceptable(value)
  {
  }

  // ---------------------------------------------------------------- what is read afterwards

  /** Once an update has been saved, each of its keys is read as the text it was submitted
      with, or, submitted as null, is not defined in any case. */
  lemma SavedIsRead(original: string, updates: seq<Update>, entries: seq<Entry>, i: nat)
    requires Offenders(updates, |updates|) == {} && EntriesOf(entries, updates) && i < |updates|
    ensures var config, key := ParseContent(Content(original, entries)), Upper(updates[i].0);
            if updates[i].1.JNull? then !DefinesKey(config, key)
            else key in config && config[key].Text? && WrittenAs(updates[i].1, config[key].text)
  {
    hide ParseContent, Content, Offenders, ValueOf, Accepted, DefinesKey, WrittenAs;
    EntriesAccepted(entries, updates);
    ValueTaken(updates[i].1);
    EditCommutes(original, entries);
    EditDefines(ParseContent(original), entries, entries[i]);
  }

  /** An array of two or more words without quotes is written as text that is read back as
      the same words where it stands without quotes. */
  lemma ArrayReadBack(key: string, words: seq<string>)
    requires ValidKey(key) && |words| >= 2 && NoQuotes(words) && forall word <- words :: IsWord(word)
    ensures var items := seq(|words|, i requires 0 <= i < |words| => JString(words[i]));
            && Coerce(JArray(items)) == Ok(Some(Linked(words, " ")))
            && ParseLine(key + "=" + Linked(words, " ")) == Some((key, Value.Words(words)))
  {
    hide ParseLine, ValidKey, IsWord, Linked, Spaced, Spacing, CoerceItems;
    var items := seq(|words|, i requires 0 <= i < |words| => JString(words[i]));
    StringsTaken(words, items);
    JoinedIsLinked(words);
    var gaps := LinkedIsSpaced(words);
    PlainValue(key, words, gaps);
  }

  lemma StringsTaken(words: seq<string>, items: seq<Json>)
    requires |items| == |words| && forall i :: 0 <= i < |words| ==> items[i] == JString(words[i])
    requires forall word <- words :: IsWord(word)
    ensures CoerceItems(items) == Ok(words)
  {
    hide CoerceItems, IsSpace;
    ItemsTaken(items);
    assert forall i :: 0 <= i < |words| ==> words[i] in words;
    assert AreItems(items, words);
  }

  lemma {:induction false} LinkedIsSpaced(words: seq<string>) returns (gaps: seq<string>)
    requires |words| > 0 && forall word <- words :: IsWord(word)
    ensures Spacing(words, gaps) && gaps[|gaps| - 1] == "" && Spaced(words, gaps) == Linked(words, " ")
  {
    if |words| == 1 {
      gaps := [""];
    } else {
      var rest := LinkedIsSpaced(words[1..]);
      gaps := [" "] + rest;
      assert gaps[1..] == rest;
      assert words[0] + " " + Linked(words[1..], " ") == words[0] + (" " + Spaced(words[1..], rest));
    }
  }
}
