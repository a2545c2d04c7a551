/** Redaction of nested event data: by content for every string, by name for sensitive keys. */
module RedactedValues {
  import opened Redaction
  import opened TextPieces
  import opened Wrappers
  import opened TextLines

  datatype Key = Name(text: string) | OtherKey(code: int)

  /** Event data: strings, dictionaries in insertion order, lists, tuples, and values that are neither. */
  datatype Value =
    | Str(text: string)
    | Dict(fields: seq<Field>)
    | List(items: seq<Value>)
    | Tuple(items: seq<Value>)
    | Other(number: int)

  datatype Field = Field(key: Key, value: Value)

  // ---------- Sensitive keys ----------

  const SENSITIVE_KEY_NAMES: seq<string> := [
    "token", "auth", "authentication", "api_key", "apikey", "access_token", "auth_token", "bearer_token",
    "refresh_token", "session_token", "password", "passwd", "secret", "secret_key", "credentials",
    "authorization", "proxy_authorization"]

  const SENSITIVE_KEY_SUBSTRINGS: seq<string> := [
    "api_key", "apikey", "secret", "password", "authorization", "credential"]

  predicate IsSensitiveKey(key: string) {
    || Lower(key) in SENSITIVE_KEY_NAMES
    || exists i :: 0 <= i < |SENSITIVE_KEY_SUBSTRINGS| && Occurs(SENSITIVE_KEY_SUBSTRINGS[i], Lower(key))
  }

  predicate Sensitive(key: Key) {
    key.Name? && IsSensitiveKey(key.text)
  }

  // ---------- Redaction ----------

  function RedactValue(secrets: seq<string>, v: Value): Value
    requires NonEmpty(secrets)
  {
    match v
    case Str(text) => Str(RedactAll(secrets, text))
    case Dict(fields) => Dict(RedactFields(secrets, fields))
    case List(items) => List(RedactItems(secrets, items))
    case Tuple(items) => Tuple(RedactItems(secrets, items))
    case Other(_) => v
  }

  function RedactItems(secrets: seq<string>, items: seq<Value>): seq<Value>
    requires NonEmpty(secrets)
  {
    if items == [] then [] else [RedactValue(secrets, items[0])] + RedactItems(secrets, items[1..])
  }

  function RedactField(secrets: seq<string>, f: Field): Field
    requires NonEmpty(secrets)
  {
    Field(f.key, if Sensitive(f.key) then Str(REDACTED) else RedactValue(secrets, f.value))
  }

  function RedactFields(secrets: seq<string>, fields: seq<Field>): seq<Field>
    requires NonEmpty(secrets)
  {
    if fields == [] then [] else [RedactField(secrets, fields[0])] + RedactFields(secrets, fields[1..])
  }

  // ---------- No string value shows a secret ----------

  /** No string value at any depth shows the secret. Keys are not values. */
  predicate SecretFree(s: string, v: Value) {
    match v
    case Str(text) => !Occurs(s, text)
    case Dict(fields) => SecretFreeFields(s, fields)
    case List(items) => SecretFreeItems(s, items)
    case Tuple(items) => SecretFreeItems(s, items)
    case Other(_) => true
  }

  predicate SecretFreeItems(s: string, items: seq<Value>) {
    items != [] ==> SecretFree(s, items[0]) && SecretFreeItems(s, items[1..])
  }

  predicate SecretFreeField(s: string, f: Field) {
    SecretFree(s, f.value)
  }

  predicate SecretFreeFields(s: string, fields: seq<Field>) {
    fields != [] ==> SecretFreeField(s, fields[0]) && SecretFreeFields(s, fields[1..])
  }

  /** The marker itself does not show a secret that cannot meet it. */
  lemma MarkerShowsNothing(s: string)
    requires s != "" && !MeetsMarker(s)
    ensures !Occurs(s, REDACTED)
  {
    forall p | 0 <= p <= |REDACTED| ensures !OccursAt(s, REDACTED, p) {
      if OccursAt(s, REDACTED, p) {
        assert REDACTED + "" == REDACTED;
        InMarkerOverlaps(s, "", p);
      }
    }
  }

  /** After redaction no string value at any depth shows a registered secret that cannot meet the marker,
      whatever else is registered. */
  lemma {:induction false} RedactedIsSecretFree(secrets: seq<string>, s: string, v: Value)
    requires NonEmpty(secrets) && s in secrets && !MeetsMarker(s)
    ensures SecretFree(s, RedactValue(secrets, v))
    decreases v
  {
    match v
    case Str(text) => SecretGone(secrets, s, text);
    case Dict(fields) => RedactedFieldsAreSecretFree(secrets, s, fields);
    case List(items) => RedactedItemsAreSecretFree(secrets, s, items);
    case Tuple(items) => RedactedItemsAreSecretFree(secrets, s, items);
    case Other(_) =>
  }

  lemma {:induction false} RedactedItemsAreSecretFree(secrets: seq<string>, s: string, items: seq<Value>)
    requires NonEmpty(secrets) && s in secrets && !MeetsMarker(s)
    ensures SecretFreeItems(s, RedactItems(secrets, items))
    decreases items
  {
    if items != [] {
      RedactedIsSecretFree(secrets, s, items[0]);
      RedactedItemsAreSecretFree(secrets, s, items[1..]);
      assert RedactItems(secrets, items)[1..] == RedactItems(secrets, items[1..]);
    }
  }

  lemma {:induction false} RedactedFieldsAreSecretFree(secrets: seq<string>, s: string, fields: seq<Field>)
    requires NonEmpty(secrets) && s in secrets && !MeetsMarker(s)
    ensures SecretFreeFields(s, RedactFields(secrets, fields))
    decreases fields
  {
    if fields != [] {
      RedactedFieldIsSecretFree(secrets, s, fields[0]);
      RedactedFieldsAreSecretFree(secrets, s, fields[1..]);
      assert RedactFields(secrets, fields)[1..] == RedactFields(secrets, fields[1..]);
    }
  }

  lemma {:induction false} RedactedFieldIsSecretFree(secrets: seq<string>, s: string, f: Field)
    requires NonEmpty(secrets) && s in secrets && !MeetsMarker(s)
    ensures SecretFreeField(s, RedactField(secrets, f))
    decreases f
  {
    if Sensitive(f.key) {
      MarkerShowsNothing(s);
    } else {
      RedactedIsSecretFree(secrets, s, f.value);
    }
  }

  // ---------- What redaction leaves alone ----------

  /** The value under a key, if any. */
  function At(fields: seq<Field>, key: Key): Value {
    if fields == [] then Other(0) else if fields[0].key == key then fields[0].value else At(fields[1..], key)
  }

  /** Redaction works key by key: sensitive keys get the marker, the others their redacted value. */
  lemma {:induction false} RedactedAt(secrets: seq<string>, fields: seq<Field>, key: Key)
    requires NonEmpty(secrets) && exists f :: f in fields && f.key == key
    ensures At(RedactFields(secrets, fields), key)
            == if Sensitive(key) then Str(REDACTED) else RedactValue(secrets, At(fields, key))
  {
    assert fields == [fields[0]] + fields[1..];
    if fields[0].key != key {
      RedactedAt(secrets, fields[1..], key);
      assert RedactFields(secrets, fields)[1..] == RedactFields(secrets, fields[1..]);
    }
  }

  // ---------- Path by path ----------

  /** One step down: to the value under a key, or to an item. */
  datatype Step = Under(key: Key) | Nth(index: nat)

  predicate HasKey(fields: seq<Field>, key: Key) {
    exists i :: 0 <= i < |fields| && fields[i].key == key
  }

  function Below(v: Value, step: Step): Option<Value> {
    match step
    case Under(key) => if v.Dict? && HasKey(v.fields, key) then Some(At(v.fields, key)) else None
    case Nth(i) =>
      if v.List? && i < |v.items| then Some(v.items[i])
      else if v.Tuple? && i < |v.items| then Some(v.items[i])
      else None
  }

  function ValueAt(v: Value, path: seq<Step>): Option<Value>
    decreases |path|
  {
    if path == [] then Some(v)
    else if Below(v, path[0]).None? then None
    else ValueAt(Below(v, path[0]).value, path[1..])
  }

  /** No key on the way is sensitive. */
  predicate OpenPath(path: seq<Step>) {
    forall i :: 0 <= i < |path| && path[i].Under? ==> !Sensitive(path[i].key)
  }

  /** What redaction makes of a value by itself: of a string the redacted text, of a container one with the same keys
      or as many items, and any other value is left alone. */
  ghost predicate Redacts(secrets: seq<string>, v: Value, w: Value)
    requires NonEmpty(secrets)
  {
    match v
    case Str(text) => w == Str(RedactAll(secrets, text))
    case Dict(fields) =>
      w.Dict? && |w.fields| == |fields| && forall i :: 0 <= i < |fields| ==> w.fields[i].key == fields[i].key
    case List(items) => w.List? && |w.items| == |items|
    case Tuple(items) => w.Tuple? && |w.items| == |items|
    case Other(_) => w == v
  }

  lemma {:induction false} RedactedItemsAt(secrets: seq<string>, items: seq<Value>)
    requires NonEmpty(secrets)
    ensures |RedactItems(secrets, items)| == |items|
    ensures forall i :: 0 <= i < |items| ==> RedactItems(secrets, items)[i] == RedactValue(secrets, items[i])
  {
    if items != [] {
      RedactedItemsAt(secrets, items[1..]);
    }
  }

  lemma {:induction false} RedactedKeys(secrets: seq<string>, fields: seq<Field>)
    requires NonEmpty(secrets)
    ensures |RedactFields(secrets, fields)| == |fields|
    ensures forall i :: 0 <= i < |fields| ==> RedactFields(secrets, fields)[i].key == fields[i].key
  {
    if fields != [] {
      RedactedKeys(secrets, fields[1..]);
    }
  }

  lemma RedactedHere(secrets: seq<string>, v: Value)
    requires NonEmpty(secrets)
    ensures Redacts(secrets, v, RedactValue(secrets, v))
  {
    match v
    case Dict(fields) => RedactedKeys(secrets, fields);
    case List(items) => RedactedItemsAt(secrets, items);
    case Tuple(items) => RedactedItemsAt(secrets, items);
    case _ =>
  }

  lemma RedactedBelow(secrets: seq<string>, v: Value, step: Step)
    requires NonEmpty(secrets)
    ensures var w := Below(RedactValue(secrets, v), step);
            match Below(v, step)
            case None => w == None
            case Some(u) =>
              w == Some(if step.Under? && Sensitive(step.key) then Str(REDACTED) else RedactValue(secrets, u))
  {
    if step.Under? && v.Dict? {
      RedactedKeys(secrets, v.fields);
      var key, redacted := step.key, RedactFields(secrets, v.fields);
      assert HasKey(redacted, key) <==> HasKey(v.fields, key) by {
        if i :| 0 <= i < |v.fields| && v.fields[i].key == key {
          assert redacted[i].key == key;
        }
        if i :| 0 <= i < |redacted| && redacted[i].key == key {
          assert v.fields[i].key == key;
        }
      }
      if i :| 0 <= i < |v.fields| && v.fields[i].key == key {
        assert v.fields[i] in v.fields;
        RedactedAt(secrets, v.fields, key);
      }
    } else if v.List? || v.Tuple? {
      RedactedItemsAt(secrets, v.items);
    }
  }

  lemma {:induction false} RedactedDown(secrets: seq<string>, v: Value, path: seq<Step>)
    requires NonEmpty(secrets) && OpenPath(path)
    ensures var w := ValueAt(RedactValue(secrets, v), path);
            match ValueAt(v, path) case None => w == None case Some(u) => w == Some(RedactValue(secrets, u))
    decreases |path|
  {
    if path != [] {
      RedactedBelow(secrets, v, path[0]);
      if Below(v, path[0]).Some? {
        forall i | 0 <= i < |path[1..]| && path[1..][i].Under? ensures !Sensitive(path[1..][i].key) {
          assert path[1..][i] == path[i + 1];
        }
        RedactedDown(secrets, Below(v, path[0]).value, path[1..]);
      }
    }
  }

  ghost predicate RedactsAt(secrets: seq<string>, v: Value, w: Value, path: seq<Step>)
    requires NonEmpty(secrets)
  {
    OpenPath(path) ==>
      && (ValueAt(w, path).Some? <==> ValueAt(v, path).Some?)
      && (ValueAt(v, path).Some? ==> Redacts(secrets, ValueAt(v, path).value, ValueAt(w, path).value))
  }

  ghost predicate HidesAt(v: Value, w: Value, path: seq<Step>, key: Key) {
    OpenPath(path) && Sensitive(key) && ValueAt(v, path).Some? && Below(ValueAt(v, path).value, Under(key)).Some? ==>
      ValueAt(w, path).Some? && Below(ValueAt(w, path).value, Under(key)) == Some(Str(REDACTED))
  }

  /** w is v redacted, told path by path: where no key on the way is sensitive, every string is redacted and all else
      stays, and under a sensitive key stands the marker. */
  ghost predicate RedactedForm(secrets: seq<string>, v: Value, w: Value)
    requires NonEmpty(secrets)
  {
    && (forall path :: RedactsAt(secrets, v, w, path))
    && forall path, key :: HidesAt(v, w, path, key)
  }

  lemma RedactedPaths(secrets: seq<string>, v: Value)
    requires NonEmpty(secrets)
    ensures RedactedForm(secrets, v, RedactValue(secrets, v))
  {
    var w := RedactValue(secrets, v);
    forall path ensures RedactsAt(secrets, v, w, path) {
      if OpenPath(path) {
        RedactedDown(secrets, v, path);
        if ValueAt(v, path).Some? {
          RedactedHere(secrets, ValueAt(v, path).value);
        }
      }
    }
    forall path, key ensures HidesAt(v, w, path, key) {
      if OpenPath(path) {
        RedactedDown(secrets, v, path);
        if ValueAt(v, path).Some? {
          RedactedBelow(secrets, ValueAt(v, path).value, Under(key));
        }
      }
    }
  }

  /** One of the substrings that make a name sensitive wherever they stand. */
  predicate HasSensitivePart(lowered: string) {
    exists i :: 0 <= i < |SENSITIVE_KEY_SUBSTRINGS| && Occurs(SENSITIVE_KEY_SUBSTRINGS[i], lowered)
  }

  /** A key is sensitive exactly if, whatever its case, it is one of the names or has one of the parts in it. */
  lemma SensitiveIff(key: string)
    ensures IsSensitiveKey(key)
            <==> Lower(key) in SENSITIVE_KEY_NAMES
                 || exists a, part, b :: part in SENSITIVE_KEY_SUBSTRINGS && Lower(key) == a + part + b
  {
    var lowered := Lower(key);
    if HasSensitivePart(lowered) {
      var i :| 0 <= i < |SENSITIVE_KEY_SUBSTRINGS| && Occurs(SENSITIVE_KEY_SUBSTRINGS[i], lowered);
      var part := SENSITIVE_KEY_SUBSTRINGS[i];
      var p :| 0 <= p <= |lowered| && OccursAt(part, lowered, p);
      assert lowered == lowered[..p] + part + lowered[p + |part|..];
      assert part in SENSITIVE_KEY_SUBSTRINGS;
    }
    if a, part, b :| part in SENSITIVE_KEY_SUBSTRINGS && lowered == a + part + b {
      var i :| 0 <= i < |SENSITIVE_KEY_SUBSTRINGS| && SENSITIVE_KEY_SUBSTRINGS[i] == part;
      assert lowered[|a|..|a| + |part|] == part;
      assert OccursAt(SENSITIVE_KEY_SUBSTRINGS[i], lowered, |a|);
    }
  }

  lemma NamesAreNotPlural()
    ensures forall i :: 0 <= i < |SENSITIVE_KEY_NAMES| ==>
              var name := SENSITIVE_KEY_NAMES[i]; |name| >= 4 && (name[|name| - 1] != 's' || name[|name| - 2] != 'n')
  {
  }

  /** Usage metrics are not taken for credentials: a name that ends in tokens is sensitive only for a part. */
  lemma TokensKeyIff(key: string)
    requires |key| >= 6 && Lower(key)[|key| - 6..] == "tokens"
    ensures IsSensitiveKey(key) <==> HasSensitivePart(Lower(key))
  {
    var lowered := Lower(key);
    assert lowered[|key| - 6..][4] == 'n' && lowered[|key| - 6..][5] == 's';
    NamesAreNotPlural();
  }

  /** Every sensitive part has an a or an r in it. */
  lemma PartsHaveAOrR(lowered: string)
    requires 'a' !in lowered && 'r' !in lowered
    ensures !HasSensitivePart(lowered)
  {
    forall i | 0 <= i < |SENSITIVE_KEY_SUBSTRINGS| ensures !Occurs(SENSITIVE_KEY_SUBSTRINGS[i], lowered) {
      var part := SENSITIVE_KEY_SUBSTRINGS[i];
      assert part[0] == 'a' || part[1] == 'a' || part[1] == 'r' || part[3] == 'r';
    }
  }

  ghost predicate Safe(secrets: seq<string>) {
    NonEmpty(secrets) && forall i :: 0 <= i < |secrets| ==> !MeetsMarker(secrets[i])
  }

  predicate Shows(secrets: seq<string>, text: string) {
    exists i :: 0 <= i < |secrets| && Occurs(secrets[i], text)
  }

  lemma RedactedTextShowsNothing(secrets: seq<string>, text: string)
    requires Safe(secrets)
    ensures !Shows(secrets, RedactAll(secrets, text))
  {
    forall i | 0 <= i < |secrets| ensures !Occurs(secrets[i], RedactAll(secrets, text)) {
      SecretGone(secrets, secrets[i], text);
    }
  }

  /** A value that shows no secret and has no sensitive key is returned as it is. */
  predicate Harmless(secrets: seq<string>, v: Value) {
    match v
    case Str(text) => !Shows(secrets, text)
    case Dict(fields) => HarmlessFields(secrets, fields)
    case List(items) => HarmlessItems(secrets, items)
    case Tuple(items) => HarmlessItems(secrets, items)
    case Other(_) => true
  }

  predicate HarmlessItems(secrets: seq<string>, items: seq<Value>) {
    items != [] ==> Harmless(secrets, items[0]) && HarmlessItems(secrets, items[1..])
  }

  predicate HarmlessField(secrets: seq<string>, f: Field) {
    if Sensitive(f.key) then f.value == Str(REDACTED) else Harmless(secrets, f.value)
  }

  predicate HarmlessFields(secrets: seq<string>, fields: seq<Field>) {
    fields != [] ==> HarmlessField(secrets, fields[0]) && HarmlessFields(secrets, fields[1..])
  }

  lemma {:induction false} HarmlessUnchanged(secrets: seq<string>, v: Value)
    requires NonEmpty(secrets) && Harmless(secrets, v)
    ensures RedactValue(secrets, v) == v
    decreases v
  {
    match v
    case Str(text) => RedactAbsent(secrets, text);
    case Dict(fields) => HarmlessFieldsUnchanged(secrets, fields);
    case List(items) => HarmlessItemsUnchanged(secrets, items);
    case Tuple(items) => HarmlessItemsUnchanged(secrets, items);
    case Other(_) =>
  }

  lemma {:induction false} HarmlessItemsUnchanged(secrets: seq<string>, items: seq<Value>)
    requires NonEmpty(secrets) && HarmlessItems(secrets, items)
    ensures RedactItems(secrets, items) == items
    decreases items
  {
    if items != [] {
      HarmlessUnchanged(secrets, items[0]);
      HarmlessItemsUnchanged(secrets, items[1..]);
    }
  }

  lemma {:induction false} HarmlessFieldsUnchanged(secrets: seq<string>, fields: seq<Field>)
    requires NonEmpty(secrets) && HarmlessFields(secrets, fields)
    ensures RedactFields(secrets, fields) == fields
    decreases fields
  {
    if fields != [] {
      HarmlessFieldUnchanged(secrets, fields[0]);
      HarmlessFieldsUnchanged(secrets, fields[1..]);
    }
  }

  lemma {:induction false} HarmlessFieldUnchanged(secrets: seq<string>, f: Field)
    requires NonEmpty(secrets) && HarmlessField(secrets, f)
    ensures RedactField(secrets, f) == f
    decreases f
  {
    if !Sensitive(f.key) {
      HarmlessUnchanged(secrets, f.value);
    }
  }

  lemma {:induction false} RedactedIsHarmless(secrets: seq<string>, v: Value)
    requires Safe(secrets)
    ensures Harmless(secrets, RedactValue(secrets, v))
    decreases v
  {
    match v
    case Str(text) => RedactedTextShowsNothing(secrets, text);
    case Dict(fields) => RedactedFieldsAreHarmless(secrets, fields);
    case List(items) => RedactedItemsAreHarmless(secrets, items);
    case Tuple(items) => RedactedItemsAreHarmless(secrets, items);
    case Other(_) =>
  }

  lemma {:induction false} RedactedItemsAreHarmless(secrets: seq<string>, items: seq<Value>)
    requires Safe(secrets)
    ensures HarmlessItems(secrets, RedactItems(secrets, items))
    decreases items
  {
    if items != [] {
      RedactedIsHarmless(secrets, items[0]);
      RedactedItemsAreHarmless(secrets, items[1..]);
      assert RedactItems(secrets, items)[1..] == RedactItems(secrets, items[1..]);
    }
  }

  lemma {:induction false} RedactedFieldsAreHarmless(secrets: seq<string>, fields: seq<Field>)
    requires Safe(secrets)
    ensures HarmlessFields(secrets, RedactFields(secrets, fields))
    decreases fields
  {
    if fields != [] {
      RedactedFieldIsHarmless(secrets, fields[0]);
      RedactedFieldsAreHarmless(secrets, fields[1..]);
      assert RedactFields(secrets, fields)[1..] == RedactFields(secrets, fields[1..]);
    }
  }

  lemma {:induction false} RedactedFieldIsHarmless(secrets: seq<string>, f: Field)
    requires Safe(secrets)
    ensures HarmlessField(secrets, RedactField(secrets, f))
    decreases f
  {
    if !Sensitive(f.key) {
      RedactedIsHarmless(secrets, f.value);
    }
  }

  /** Redacting twice is redacting once, at every depth. */
  lemma RedactValueTwice(secrets: seq<string>, v: Value)
    requires Safe(secrets)
    ensures RedactValue(secrets, RedactValue(secrets, v)) == RedactValue(secrets, v)
  {
    RedactedIsHarmless(secrets, v);
    HarmlessUnchanged(secrets, RedactValue(secrets, v));
  }

  // ---------- The redactor object ----------

  class SecretRedactor {
    const secrets: seq<string>

    /** Keeps the distinct candidates of sufficient length, longest first. */
    constructor (candidates: seq<string>)
      ensures Registered(secrets)
      ensures forall s :: s in secrets <==> s in candidates && |s| >= 6
      ensures Distinct(secrets)
    {
      var kept: seq<string> := [];
      for i := 0 to |candidates|
        invariant Registered(kept)
        invariant forall s :: s in kept <==> s in candidates[..i] && |s| >= MIN_SECRET_LENGTH
        invariant Distinct(kept)
      {
        assert candidates[..i + 1] == candidates[..i] + [candidates[i]];
        if |candidates[i]| >= MIN_SECRET_LENGTH && candidates[i] !in kept {
          InsertedRegistered(kept, candidates[i]);
          InsertedDistinct(kept, candidates[i]);
          forall u { InsertedMembers(kept, candidates[i], u); }
          kept := InsertByLength(kept, candidates[i]);
        }
      }
      assert candidates[..|candidates|] == candidates;
      secrets := kept;
    }

    method RedactText(text0: string) returns (text: string)
      requires Registered(secrets)
      ensures NonEmpty(secrets) && text == RedactAll(secrets, text0)
    {
      text := text0;
      for i := 0 to |secrets|
        invariant NonEmpty(secrets[..i]) && text == RedactAll(secrets[..i], text0)
      {
        assert secrets[..i + 1][..i] == secrets[..i];
        text := Replace(text, secrets[i]);
      }
      assert secrets[..|secrets|] == secrets;
    }
  }

  function InsertByLength(kept: seq<string>, s: string): seq<string> {
    if kept == [] || |kept[0]| < |s| then [s] + kept else [kept[0]] + InsertByLength(kept[1..], s)
  }

  lemma {:induction false} InsertedMembers(kept: seq<string>, s: string, u: string)
    ensures u in InsertByLength(kept, s) <==> u in kept || u == s
  {
    if kept != [] && |kept[0]| >= |s| {
      assert kept == [kept[0]] + kept[1..];
      InsertedMembers(kept[1..], s, u);
    }
  }

  ghost predicate Distinct(secrets: seq<string>) {
    forall i, j :: 0 <= i < j < |secrets| ==> secrets[i] != secrets[j]
  }

  lemma {:induction false} InsertedRegistered(kept: seq<string>, s: string)
    requires Registered(kept) && |s| >= MIN_SECRET_LENGTH
    ensures Registered(InsertByLength(kept, s))
  {
    if kept != [] && |kept[0]| >= |s| {
      var rest := InsertByLength(kept[1..], s);
      InsertedRegistered(kept[1..], s);
      forall j | 0 <= j < |rest| ensures |rest[j]| <= |kept[0]| {
        InsertedMembers(kept[1..], s, rest[j]);
      }
    }
  }

  lemma {:induction false} InsertedDistinct(kept: seq<string>, s: string)
    requires Distinct(kept) && s !in kept
    ensures Distinct(InsertByLength(kept, s))
  {
    if kept != [] && |kept[0]| >= |s| {
      var rest := InsertByLength(kept[1..], s);
      InsertedDistinct(kept[1..], s);
      forall j | 0 <= j < |rest| ensures rest[j] != kept[0] {
        InsertedMembers(kept[1..], s, rest[j]);
      }
    }
  }
}
