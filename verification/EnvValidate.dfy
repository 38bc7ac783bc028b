/** Validating a submitted update before anything is written. */
module EnvValidate {
  import opened Spans
  import opened Text
  import opened EnvSyntax
  import opened EnvPlan

  datatype Result<+T, +E> = Ok(value: T) | Err(error: E)

  /** A submitted value; a number is given by its rendered text. */
  datatype Json =
    | JNull
    | JString(text: string)
    | JNumber(rendered: string)
    | JBool(b: bool)
    | JArray(items: seq<Json>)
    | JObject

  /** Why a key was refused. */
  datatype Reject = InvalidKey | InvalidValue | UnsupportedType | ForbiddenKey

  type Update = (string, Json)

  const MAX_KEY_LEN := 128

  const FORBIDDEN_KEYS := {
    "BASH_ENV", "ENV", "GLIBC_TUNABLES", "IFS", "NODE_OPTIONS", "PATH", "PERL5LIB",
    "PYTHONHOME", "PYTHONPATH", "PYTHONSTARTUP", "SHELLOPTS"
  }

  /** Whether the key names a loader or runtime variable. */
  predicate Forbidden(key: string) {
    var upper := Upper(key);
    "LD_" <= upper || upper in FORBIDDEN_KEYS
  }

  function KeyReject(key: string): Option<Reject> {
    if |key| > MAX_KEY_LEN || !ValidKey(key) then Some(InvalidKey)
    else if Forbidden(key) then Some(ForbiddenKey)
    else None
  }

  function Scalar(value: Json): Option<string> {
    match value
    case JString(text) => Some(text)
    case JNumber(rendered) => Some(rendered)
    case JBool(b) => Some(if b then "true" else "false")
    case _ => None
  }

  predicate HasSpace(s: string) {
    exists i :: 0 <= i < |s| && IsSpace(s[i])
  }

  function CoerceItems(items: seq<Json>): Result<seq<string>, Reject> {
    if |items| == 0 then Ok([])
    else
      match CoerceItems(items[..|items| - 1])
      case Err(reject) => Err(reject)
      case Ok(parts) =>
        match Scalar(items[|items| - 1])
        case None => Err(UnsupportedType)
        case Some(part) => if HasSpace(part) then Err(InvalidValue) else Ok(parts + [part])
  }

  function JoinWords(words: seq<string>): string {
    if |words| == 0 then ""
    else if |words| == 1 then words[0]
    else JoinWords(words[..|words| - 1]) + " " + words[|words| - 1]
  }

  /** The text to write for a value, or none to unset the key. */
  function Coerce(value: Json): Result<Option<string>, Reject> {
    match value
    case JNull => Ok(None)
    case JObject => Err(UnsupportedType)
    case JArray(items) =>
      (match CoerceItems(items)
       case Err(reject) => Err(reject)
       case Ok(parts) => Ok(Some(JoinWords(parts))))
    case _ => Ok(Scalar(value))
  }

  /** A value's text, refused when it holds a control character. */
  function ValueOf(value: Json): Result<Option<string>, Reject> {
    match Coerce(value)
    case Err(reject) => Err(reject)
    case Ok(None) => Ok(None)
    case Ok(Some(text)) => if Writable(text) then Ok(Some(text)) else Err(InvalidValue)
  }

  // ---------------------------------------------------------------- which keys offend

  predicate KeyAllowed(update: Update) {
    KeyReject(update.0) == None
  }

  predicate Collide(a: Update, b: Update) {
    KeyAllowed(a) && KeyAllowed(b) && Upper(a.0) == Upper(b.0)
  }

  /** Whether update `i` offends, on its own or against another of the first `n`. */
  predicate Offends(updates: seq<Update>, n: nat, i: nat)
    requires i < n <= |updates|
  {
    || !KeyAllowed(updates[i])
    || ValueOf(updates[i].1).Err?
    || exists j :: 0 <= j < n && j != i && Collide(updates[i], updates[j])
  }

  function Offenders(updates: seq<Update>, n: nat): set<string>
    requires n <= |updates|
  {
    set i | 0 <= i < n && Offends(updates, n, i) :: updates[i].0
  }

  /** The entries of updates that do not offend. */
  predicate EntriesOf(entries: seq<Entry>, updates: seq<Update>) {
    && |entries| == |updates|
    && forall i :: 0 <= i < |entries| ==>
         KeyAllowed(updates[i]) && ValueOf(updates[i].1).Ok?
             && entries[i] == Entry(Upper(updates[i].0), ValueOf(updates[i].1).value)
  }

  /** The first update of each key seen so far, by its upper-case key. */
  ghost predicate Seen(seen: map<string, string>, updates: seq<Update>, n: nat)
    requires n <= |updates|
  {
    && (forall i :: 0 <= i < n && KeyAllowed(updates[i]) ==> Upper(updates[i].0) in seen)
    && (forall u <- seen :: exists i ::
        0 <= i < n && KeyAllowed(updates[i]) && Upper(updates[i].0) == u && updates[i].0 == seen[u])
  }

  lemma OffendsMore(updates: seq<Update>, n: nat, i: nat)
    requires i < n < |updates|
    ensures Offends(updates, n + 1, i) <==> Offends(updates, n, i) || Collide(updates[i], updates[n])
  {
  }

  /** A further update that collides with none before adds at most itself. */
  lemma OffendersAlone(updates: seq<Update>, n: nat)
    requires n < |updates|
    requires forall j :: 0 <= j < n ==> !Collide(updates[j], updates[n])
    ensures var bad := !KeyAllowed(updates[n]) || ValueOf(updates[n].1).Err?;
            Offenders(updates, n + 1) == Offenders(updates, n) + if bad then {updates[n].0} else {}
  {
    forall i | 0 <= i < n
      ensures Offends(updates, n + 1, i) <==> Offends(updates, n, i)
    {
      OffendsMore(updates, n, i);
    }
    assert Offends(updates, n + 1, n) <==> !KeyAllowed(updates[n]) || ValueOf(updates[n].1).Err?;
  }

  /** A further update that collides with an earlier one adds itself and that one. */
  lemma OffendersTogether(updates: seq<Update>, n: nat, k: nat)
    requires k < n < |updates| && Collide(updates[k], updates[n])
    ensures Offenders(updates, n + 1) == Offenders(updates, n) + {updates[n].0, updates[k].0}
  {
    assert Collide(updates[n], updates[k]);
    assert Offends(updates, n + 1, n);
    forall i | 0 <= i < n
      ensures Offends(updates, n + 1, i) <==> Offends(updates, n, i) || i == k
    {
      OffendsMore(updates, n, i);
      if Collide(updates[i], updates[n]) && i != k {
        assert Collide(updates[i], updates[k]);
      }
    }
  }

  lemma SeenMore(seen: map<string, string>, updates: seq<Update>, n: nat)
    requires n < |updates| && Seen(seen, updates, n) && KeyAllowed(updates[n]) && Upper(updates[n].0) !in seen
    ensures Seen(seen[Upper(updates[n].0) := updates[n].0], updates, n + 1)
    ensures forall j :: 0 <= j < n ==> !Collide(updates[j], updates[n])
  {
  }

  lemma SeenSame(seen: map<string, string>, updates: seq<Update>, n: nat)
    requires n < |updates| && Seen(seen, updates, n)
    requires KeyAllowed(updates[n]) ==> Upper(updates[n].0) in seen
    ensures Seen(seen, updates, n + 1)
  {
    forall u | u in seen
      ensures exists i ::
              0 <= i < n + 1 && KeyAllowed(updates[i]) && Upper(updates[i].0) == u && updates[i].0 == seen[u]
    {
      var i :| 0 <= i < n && KeyAllowed(updates[i]) && Upper(updates[i].0) == u && updates[i].0 == seen[u];
    }
  }

  /** Entries of updates none of which offends are accepted. */
  lemma EntriesAccepted(entries: seq<Entry>, updates: seq<Update>)
    requires EntriesOf(entries, updates) && Offenders(updates, |updates|) == {}
    ensures Accepted(entries)
  {
    OffendersAll(updates, |updates|);
    forall i | 0 <= i < |entries|
      ensures AcceptedEntry(entries[i])
    {
      ValidKeyChars(updates[i].0);
      UpperTwice(updates[i].0);
    }
    forall i, j | 0 <= i < j < |entries|
      ensures entries[i].key != entries[j].key
    {
      assert !Offends(updates, |updates|, i);
      assert !Collide(updates[i], updates[j]);
    }
  }

  lemma OffendersAll(updates: seq<Update>, n: nat)
    requires n <= |updates|
    ensures forall i :: 0 <= i < n && Offends(updates, n, i) ==> updates[i].0 in Offenders(updates, n)
  {
  }

  lemma UpperTwice(s: string)
    ensures Upper(Upper(s)) == Upper(s)
  {
  }

  /** Validates and normalizes every update, or reports every offending key. */
  method Validate(updates: seq<Update>) returns (result: Result<seq<Entry>, map<string, Reject>>)
    ensures result.Ok? <==> Offenders(updates, |updates|) == {}
    ensures result.Ok? ==> EntriesOf(result.value, updates) && Accepted(result.value)
    ensures result.Err? ==> result.error.Keys == Offenders(updates, |updates|)
  {
    hide Offenders, Seen, KeyReject, ValueOf, Collide;
    var entries: seq<Entry> := [];
    var rejects: map<string, Reject> := map[];
    var seen: map<string, string> := map[];
    NothingYet(updates);
    for n := 0 to |updates|
      invariant Seen(seen, updates, n)
      invariant rejects.Keys == Offenders(updates, n)
      invariant rejects == map[] ==> EntriesOf(entries, updates[..n])
    {
      var (key, value) := updates[n];
      assert updates[..n + 1] == updates[..n] + [updates[n]];
      var refused := KeyReject(key);
      if refused.Some? {
        NotAllowedAlone(updates, n);
        SeenSame(seen, updates, n);
        rejects := rejects[key := refused.value];
        continue;
      }
      var upper := Upper(key);
      if upper in seen {
        var previous := seen[upper];
        var k := Claimed(seen, updates, n);
        OffendersTogether(updates, n, k);
        SeenSame(seen, updates, n);
        rejects := rejects[key := InvalidKey];
        rejects := rejects[previous := InvalidKey];
        continue;
      }
      SeenMore(seen, updates, n);
      OffendersAlone(updates, n);
      seen := seen[upper := key];
      match ValueOf(value) {
        case Err(reject) => rejects := rejects[key := reject];
        case Ok(text) => entries := entries + [Entry(upper, text)];
      }
    }
    assert updates[..|updates|] == updates;
    if rejects == map[] {
      EntriesAccepted(entries, updates);
      result := Ok(entries);
    } else {
      result := Err(rejects);
    }
  }

  lemma NothingYet(updates: seq<Update>)
    ensures Seen(map[], updates, 0) && Offenders(updates, 0) == {}
  {
  }

  lemma NotAllowedAlone(updates: seq<Update>, n: nat)
    requires n < |updates| && !KeyAllowed(updates[n])
    ensures Offenders(updates, n + 1) == Offenders(updates, n) + {updates[n].0}
  {
    OffendersAlone(updates, n);
  }

  /** The earlier update that claimed the key. */
  lemma Claimed(seen: map<string, string>, updates: seq<Update>, n: nat) returns (k: nat)
    requires n < |updates| && Seen(seen, updates, n) && KeyAllowed(updates[n]) && Upper(updates[n].0) in seen
    ensures k < n && Collide(updates[k], updates[n]) && updates[k].0 == seen[Upper(updates[n].0)]
  {
    k :| 0 <= k < n && KeyAllowed(updates[k]) && Upper(updates[k].0) == Upper(updates[n].0)
         && updates[k].0 == seen[Upper(updates[n].0)];
  }
}
