/** Masking of sensitive values in audit metadata. */
module Mask {
  import opened Text
  import opened Wrappers

  /** A JavaScript value as the masking sees it; the entries of an object are in insertion order. */
  datatype Json =
    | Undefined
    | Null
    | Bool(bool)
    | Number(int)
    | Str(text: string)
    | Arr(items: seq<Json>)
    | Obj(fields: seq<Entry>)

  datatype Entry = Entry(key: string, value: Json)

  const SENSITIVE_KEYS := {"password", "passwordhash", "token", "secret", "otp", "authorization", "secretkey",
      "access_token"}

  const PROTO := "__proto__"

  const REDACTED := Str("[REDACTED]")

  predicate Sensitive(lower: CaseMap, key: string) {
    lower(key) in SENSITIVE_KEYS
  }

  /** Reading a property; a missing one is undefined. */
  function Get(fields: seq<Entry>, key: string): Json {
    if fields == [] then Undefined
    else if fields[0].key == key then fields[0].value
    else Get(fields[1..], key)
  }

  /** The object describes a change of a sensitive field. */
  predicate HidesChange(lower: CaseMap, fields: seq<Entry>) {
    Get(fields, "field").Str? && Sensitive(lower, Get(fields, "field").text)
  }

  function Blot(j: Json): Json {
    if j == Undefined then Undefined else REDACTED
  }

  function ChangeShown(fields: seq<Entry>): seq<Entry> {
    [Entry("field", Get(fields, "field")), Entry("before", Blot(Get(fields, "before"))),
        Entry("after", Blot(Get(fields, "after")))]
  }

  function Masked(lower: CaseMap, j: Json): Json
    decreases j
  {
    match j
    case Arr(items) => Arr(seq(|items|, i requires 0 <= i < |items| => Masked(lower, items[i])))
    case Obj(fields) =>
      if HidesChange(lower, fields) then Obj(ChangeShown(fields))
      else Obj(seq(|fields|, i requires 0 <= i < |fields| => MaskedEntry(lower, fields[i])))
    case _ => j
  }

  function MaskedEntry(lower: CaseMap, e: Entry): Entry
    decreases e
  {
    Entry(e.key, if Sensitive(lower, e.key) then REDACTED else Masked(lower, e.value))
  }

  // ---------------------------------------------------------------- the masking as the service performs it

  /** Property assignment: replaces the value of a property, or adds the property at the end. */
  function Put(fields: seq<Entry>, key: string, value: Json): seq<Entry> {
    if fields == [] then [Entry(key, value)]
    else if fields[0].key == key then [Entry(key, value)] + fields[1..]
    else [fields[0]] + Put(fields[1..], key, value)
  }

  lemma {:induction false} PutNew(fields: seq<Entry>, key: string, value: Json)
    requires forall i | 0 <= i < |fields| :: fields[i].key != key
    ensures Put(fields, key, value) == fields + [Entry(key, value)]
  {
    if fields != [] { PutNew(fields[1..], key, value); }
  }

  /** Objects have distinct keys, at every depth, and none is `__proto__`, whose assignment adds no property. */
  predicate IsObjectTree(j: Json)
    decreases j
  {
    match j
    case Arr(items) => forall i | 0 <= i < |items| :: IsObjectTree(items[i])
    case Obj(fields) =>
      && (forall i, k | 0 <= i < k < |fields| :: fields[i].key != fields[k].key)
      && forall i | 0 <= i < |fields| :: fields[i].key != PROTO && IsObjectTree(fields[i].value)
    case _ => true
  }

  method MaskSensitiveData(lower: CaseMap, data: Json) returns (r: Json)
    requires IsObjectTree(data)
    ensures r == Masked(lower, data)
    decreases data
  {
    hide Sensitive, HidesChange, ChangeShown, Get, Put;
    if !data.Arr? && !data.Obj? { return data; }
    if data.Arr? {
      var items: seq<Json> := [];
      for i := 0 to |data.items|
        invariant |items| == i
        invariant forall k | 0 <= k < i :: items[k] == Masked(lower, data.items[k])
      {
        var item := MaskSensitiveData(lower, data.items[i]);
        items := items + [item];
      }
      return Arr(items);
    }
    var fields := data.fields;
    if HidesChange(lower, fields) { return Obj(ChangeShown(fields)); }
    var masked: seq<Entry> := [];
    for i := 0 to |fields|
      invariant |masked| == i
      invariant forall k | 0 <= k < i :: masked[k] == MaskedEntry(lower, fields[k])
    {
      var key, val := fields[i].key, fields[i].value;
      PutNew(masked, key, REDACTED);
      if Sensitive(lower, key) {
        masked := Put(masked, key, REDACTED);
      } else {
        var inner := MaskSensitiveData(lower, val);
        PutNew(masked, key, inner);
        masked := Put(masked, key, inner);
      }
    }
    return Obj(masked);
  }

  // ---------------------------------------------------------------- what masking hides, exactly

  predicate SamePresence(xs: seq<Entry>, ys: seq<Entry>, key: string) {
    Get(xs, key) == Undefined <==> Get(ys, key) == Undefined
  }

  /** Equal but for the secrets: what lies under sensitive keys, and all of a sensitive change
      except its field's name and whether it has a before and an after. */
  predicate EqualButSecrets(lower: CaseMap, a: Json, b: Json)
    decreases a
  {
    match (a, b)
    case (Arr(xs), Arr(ys)) => |xs| == |ys| && forall i | 0 <= i < |xs| :: EqualButSecrets(lower, xs[i], ys[i])
    case (Obj(xs), Obj(ys)) =>
      if HidesChange(lower, xs) || HidesChange(lower, ys) then
        Get(xs, "field") == Get(ys, "field") && SamePresence(xs, ys, "before") && SamePresence(xs, ys, "after")
      else
        && |xs| == |ys|
        && forall i | 0 <= i < |xs| ::
             xs[i].key == ys[i].key && (Sensitive(lower, xs[i].key) || EqualButSecrets(lower, xs[i].value, ys[i].value))
    case _ => a == b
  }

  lemma FieldIsPlain(lower: CaseMap)
    ensures !Sensitive(lower, "field")
  {
    assert IsCaseMap(lower);
    assert lower("field") == "field";
    assert "field"[0] == 'f';
    forall k | k in SENSITIVE_KEYS ensures k[0] != 'f' {
    }
  }

  /** Masking an object that is not a sensitive change leaves its own field name as it was. */
  lemma {:induction false} GetMasked(lower: CaseMap, fields: seq<Entry>, masked: seq<Entry>)
    requires |masked| == |fields| && forall i | 0 <= i < |fields| :: masked[i] == MaskedEntry(lower, fields[i])
    ensures Get(masked, "field") == if Get(fields, "field") == Undefined then Undefined
        else Masked(lower, Get(fields, "field"))
  {
    FieldIsPlain(lower);
    if fields != [] && fields[0].key != "field" {
      GetMasked(lower, fields[1..], masked[1..]);
    }
  }

  lemma GetThird(fields: seq<Entry>, key: string)
    requires |fields| == 3 && fields[0].key != key && fields[1].key != key && fields[2].key == key
    ensures Get(fields, key) == fields[2].value
  {
    assert Get(fields[1..], key) == Get(fields[1..][1..], key);
  }

  lemma ShownGets(fields: seq<Entry>)
    ensures var shown := ChangeShown(fields);
      && Get(shown, "field") == Get(fields, "field")
      && Get(shown, "before") == Blot(Get(fields, "before"))
      && Get(shown, "after") == Blot(Get(fields, "after"))
  {
    var shown := ChangeShown(fields);
    assert "field"[0] == 'f' && "before"[0] == 'b' && "after"[0] == 'a';
    GetThird(shown, "after");
  }

  /** Masking keeps an object's kind: a sensitive change stays one, and no other object becomes one. */
  lemma KindKept(lower: CaseMap, fields: seq<Entry>)
    ensures HidesChange(lower, Masked(lower, Obj(fields)).fields) == HidesChange(lower, fields)
    ensures Get(Masked(lower, Obj(fields)).fields, "field").Str? || Get(fields, "field").Str?
      ==> Get(Masked(lower, Obj(fields)).fields, "field") == Get(fields, "field")
  {
    if HidesChange(lower, fields) {
      ShownGets(fields);
    } else {
      GetMasked(lower, fields, Masked(lower, Obj(fields)).fields);
    }
  }

  /** Two values are masked alike exactly when they are equal but for the secrets. */
  lemma {:induction false} MaskingHidesExactly(lower: CaseMap, a: Json, b: Json)
    ensures Masked(lower, a) == Masked(lower, b) <==> EqualButSecrets(lower, a, b)
    decreases a
  {
    match (a, b)
    case (Arr(xs), Arr(ys)) =>
      if |xs| == |ys| {
        forall i | 0 <= i < |xs| ensures Masked(lower, xs[i]) == Masked(lower, ys[i])
          <==> EqualButSecrets(lower, xs[i], ys[i]) {
          MaskingHidesExactly(lower, xs[i], ys[i]);
        }
        ArraysAlike(lower, xs, ys);
      } else {
        assert |Masked(lower, a).items| != |Masked(lower, b).items|;
      }
    case (Obj(xs), Obj(ys)) =>
      if HidesChange(lower, xs) || HidesChange(lower, ys) {
        ChangesAlike(lower, xs, ys);
      } else if |xs| == |ys| {
        forall i | 0 <= i < |xs|
          ensures Masked(lower, xs[i].value) == Masked(lower, ys[i].value)
            <==> EqualButSecrets(lower, xs[i].value, ys[i].value)
        {
          MaskingHidesExactly(lower, xs[i].value, ys[i].value);
        }
        ObjectsAlike(lower, xs, ys);
      } else {
        assert |Masked(lower, a).fields| != |Masked(lower, b).fields|;
      }
    case _ =>
  }

  lemma ArraysAlike(lower: CaseMap, xs: seq<Json>, ys: seq<Json>)
    requires |xs| == |ys|
    ensures Masked(lower, Arr(xs)) == Masked(lower, Arr(ys))
        <==> forall i | 0 <= i < |xs| :: Masked(lower, xs[i]) == Masked(lower, ys[i])
  {
    var ms, ns := Masked(lower, Arr(xs)).items, Masked(lower, Arr(ys)).items;
    forall i | 0 <= i < |xs| ensures ms[i] == Masked(lower, xs[i]) && ns[i] == Masked(lower, ys[i]) {
    }
  }

  lemma ObjectsAlike(lower: CaseMap, xs: seq<Entry>, ys: seq<Entry>)
    requires |xs| == |ys| && !HidesChange(lower, xs) && !HidesChange(lower, ys)
    ensures Masked(lower, Obj(xs)) == Masked(lower, Obj(ys))
        <==> forall i | 0 <= i < |xs| ::
               xs[i].key == ys[i].key
               && (Sensitive(lower, xs[i].key) || Masked(lower, xs[i].value) == Masked(lower, ys[i].value))
  {
    var ms, ns := Masked(lower, Obj(xs)).fields, Masked(lower, Obj(ys)).fields;
    forall i | 0 <= i < |xs| ensures ms[i] == MaskedEntry(lower, xs[i]) && ns[i] == MaskedEntry(lower, ys[i]) {
    }
  }

  lemma ChangesAlike(lower: CaseMap, xs: seq<Entry>, ys: seq<Entry>)
    requires HidesChange(lower, xs) || HidesChange(lower, ys)
    ensures Masked(lower, Obj(xs)) == Masked(lower, Obj(ys))
        <==> Get(xs, "field") == Get(ys, "field") && SamePresence(xs, ys, "before") && SamePresence(xs, ys, "after")
  {
    KindKept(lower, xs);
    KindKept(lower, ys);
    if HidesChange(lower, xs) && HidesChange(lower, ys) {
      ShownGets(xs);
      ShownGets(ys);
    }
  }

  // ---------------------------------------------------------------- what is shown, spelled out

  /** The names whose values are never shown, in any case. */
  predicate IsSecret(lower: CaseMap, key: string) {
    var k := lower(key);
    || k == "password" || k == "passwordhash" || k == "token" || k == "secret" || k == "otp"
    || k == "authorization" || k == "secretkey" || k == "access_token"
  }

  /** The object has a property `field` that is the name of a secret. */
  ghost predicate NamesSecret(lower: CaseMap, fields: seq<Entry>) {
    exists i | 0 <= i < |fields| ::
      fields[i].key == "field" && fields[i].value.Str? && IsSecret(lower, fields[i].value.text)
  }

  /** With distinct keys a property has the value of its one entry. */
  lemma {:induction false} GetExactly(fields: seq<Entry>, key: string, i: nat)
    requires forall j, k | 0 <= j < k < |fields| :: fields[j].key != fields[k].key
    ensures i < |fields| && fields[i].key == key ==> Get(fields, key) == fields[i].value
    ensures (forall j | 0 <= j < |fields| :: fields[j].key != key) ==> Get(fields, key) == Undefined
  {
    if fields != [] && fields[0].key != key { GetExactly(fields[1..], key, if i > 0 then i - 1 else 0); }
  }

  lemma HidesExactly(lower: CaseMap, fields: seq<Entry>)
    requires forall j, k | 0 <= j < k < |fields| :: fields[j].key != fields[k].key
    ensures HidesChange(lower, fields) <==> NamesSecret(lower, fields)
  {
    if exists i :: 0 <= i < |fields| && fields[i].key == "field" {
      var i :| 0 <= i < |fields| && fields[i].key == "field";
      GetExactly(fields, "field", i);
    } else {
      GetExactly(fields, "field", 0);
    }
  }

  /** What is shown of an object: of a change to a secret only its name and whether there was a value before and after;
      of any other object every property in its place, with `[REDACTED]` for each secret and the masked value for
      the rest. Lists are masked item by item, and everything else is shown. */
  lemma MaskedExactly(lower: CaseMap, j: Json)
    requires IsObjectTree(j)
    ensures !j.Arr? && !j.Obj? ==> Masked(lower, j) == j
    ensures j.Arr? ==>
        && Masked(lower, j).Arr? && |Masked(lower, j).items| == |j.items|
        && forall i | 0 <= i < |j.items| :: Masked(lower, j).items[i] == Masked(lower, j.items[i])
    ensures j.Obj? && NamesSecret(lower, j.fields) ==>
        Masked(lower, j) == Obj([
          Entry("field", Get(j.fields, "field")),
          Entry("before", if Get(j.fields, "before") == Undefined then Undefined else Str("[REDACTED]")),
          Entry("after", if Get(j.fields, "after") == Undefined then Undefined else Str("[REDACTED]"))])
    ensures j.Obj? && !NamesSecret(lower, j.fields) ==>
        && Masked(lower, j).Obj? && |Masked(lower, j).fields| == |j.fields|
        && forall i | 0 <= i < |j.fields| :: Masked(lower, j).fields[i]
             == Entry(j.fields[i].key,
                      if IsSecret(lower, j.fields[i].key) then Str("[REDACTED]") else Masked(lower, j.fields[i].value))
  {
    if j.Obj? { HidesExactly(lower, j.fields); }
  }

  // ---------------------------------------------------------------- what masking leaves

  /** Nothing secret is left at any depth, and nothing else would be changed by masking. */
  predicate Clean(lower: CaseMap, j: Json)
    decreases j
  {
    match j
    case Arr(items) => forall i | 0 <= i < |items| :: Clean(lower, items[i])
    case Obj(fields) =>
      if HidesChange(lower, fields) then
        && |fields| == 3 && fields[0].key == "field" && fields[1].key == "before" && fields[2].key == "after"
        && fields[1].value in {Undefined, REDACTED} && fields[2].value in {Undefined, REDACTED}
      else
        forall i | 0 <= i < |fields| ::
          if Sensitive(lower, fields[i].key) then fields[i].value == REDACTED else Clean(lower, fields[i].value)
    case _ => true
  }

  /** Masked data is clean, and clean data is exactly the data that masking leaves alone. */
  lemma {:induction false} MaskingCleans(lower: CaseMap, j: Json)
    ensures Clean(lower, Masked(lower, j))
    ensures Clean(lower, j) <==> Masked(lower, j) == j
    decreases j
  {
    match j
    case Arr(items) =>
      forall i | 0 <= i < |items|
        ensures Clean(lower, Masked(lower, items[i]))
            && (Clean(lower, items[i]) <==> Masked(lower, items[i]) == items[i])
      {
        MaskingCleans(lower, items[i]);
      }
      ArrayCleans(lower, items);
    case Obj(fields) =>
      KindKept(lower, fields);
      if HidesChange(lower, fields) {
        ChangeCleans(lower, fields);
      } else {
        forall i | 0 <= i < |fields|
          ensures Clean(lower, Masked(lower, fields[i].value))
          ensures Clean(lower, fields[i].value) <==> Masked(lower, fields[i].value) == fields[i].value
        {
          MaskingCleans(lower, fields[i].value);
        }
        ObjectCleans(lower, fields);
      }
    case _ =>
  }

  lemma ArrayCleans(lower: CaseMap, items: seq<Json>)
    requires forall i | 0 <= i < |items| ::
      Clean(lower, Masked(lower, items[i])) && (Clean(lower, items[i]) <==> Masked(lower, items[i]) == items[i])
    ensures Clean(lower, Masked(lower, Arr(items)))
    ensures Clean(lower, Arr(items)) <==> Masked(lower, Arr(items)) == Arr(items)
  {
    var ms := Masked(lower, Arr(items)).items;
    forall i | 0 <= i < |items| ensures ms[i] == Masked(lower, items[i]) {
    }
  }

  lemma ObjectCleans(lower: CaseMap, fields: seq<Entry>)
    requires !HidesChange(lower, fields)
    requires forall i | 0 <= i < |fields| ::
      Clean(lower, Masked(lower, fields[i].value))
          && (Clean(lower, fields[i].value) <==> Masked(lower, fields[i].value) == fields[i].value)
    ensures Clean(lower, Masked(lower, Obj(fields)))
    ensures Clean(lower, Obj(fields)) <==> Masked(lower, Obj(fields)) == Obj(fields)
  {
    KindKept(lower, fields);
    var ms := Masked(lower, Obj(fields)).fields;
    forall i | 0 <= i < |fields| ensures ms[i] == MaskedEntry(lower, fields[i]) {
    }
  }

  lemma ChangeCleans(lower: CaseMap, fields: seq<Entry>)
    requires HidesChange(lower, fields)
    ensures Clean(lower, Masked(lower, Obj(fields)))
    ensures Clean(lower, Obj(fields)) <==> Masked(lower, Obj(fields)) == Obj(fields)
  {
    KindKept(lower, fields);
    if |fields| == 3 && fields[0].key == "field" && fields[1].key == "before" && fields[2].key == "after" {
      assert "field"[0] == 'f' && "before"[0] == 'b' && "after"[0] == 'a';
      GetThird(fields, "after");
      assert Get(fields, "before") == fields[1].value && Get(fields, "after") == fields[2].value;
    }
  }

  /** Masking twice is masking once. */
  lemma MaskingIdempotent(lower: CaseMap, j: Json)
    ensures Masked(lower, Masked(lower, j)) == Masked(lower, j)
  {
    MaskingCleans(lower, j);
    MaskingCleans(lower, Masked(lower, j));
  }

  // ---------------------------------------------------------------- an audit row as it is shown

  function Drop(fields: seq<Entry>, key: string): seq<Entry> {
    if fields == [] then []
    else if fields[0].key == key then Drop(fields[1..], key)
    else [fields[0]] + Drop(fields[1..], key)
  }

  /** What a row shows of its metadata: the list of changes on its own, and the rest if there is any. */
  datatype Shown = Shown(changes: Option<Json>, metadata: Option<Json>)

  function MapRow(lower: CaseMap, fields: seq<Entry>): Shown {
    var changes, rest := Get(fields, "changes"), Drop(fields, "changes");
    Shown(if changes.Arr? then Some(Masked(lower, changes)) else None,
          if rest != [] then Some(Masked(lower, Obj(rest))) else None)
  }

  lemma {:induction false} DropGets(fields: seq<Entry>, key: string, other: string)
    ensures Get(Drop(fields, key), other) == if other == key then Undefined else Get(fields, other)
    ensures Drop(fields, key) == [] <==> forall i | 0 <= i < |fields| :: fields[i].key == key
  {
    if fields != [] { DropGets(fields[1..], key, other); }
  }

  /** What a row shows, property by property: its changes if they are a list, masked, and all other properties, masked,
      if it has any. */
  lemma RowExactly(lower: CaseMap, fields: seq<Entry>, key: string)
    ensures MapRow(lower, fields).changes
         == if Get(fields, "changes").Arr? then Some(Masked(lower, Get(fields, "changes"))) else None
    ensures var rest := Drop(fields, "changes");
      && Get(rest, key) == (if key == "changes" then Undefined else Get(fields, key))
      && MapRow(lower, fields).metadata
         == if forall i | 0 <= i < |fields| :: fields[i].key == "changes" then None else Some(Masked(lower, Obj(rest)))
  {
    DropGets(fields, "changes", key);
  }

  /** Two rows look alike exactly when their changes and the rest of their metadata are equal but for the secrets. */
  lemma RowsAlike(lower: CaseMap, xs: seq<Entry>, ys: seq<Entry>)
    ensures MapRow(lower, xs) == MapRow(lower, ys) <==>
      && (Get(xs, "changes").Arr? || Get(ys, "changes").Arr?
          ==> EqualButSecrets(lower, Get(xs, "changes"), Get(ys, "changes")))
      && EqualButSecrets(lower, Obj(Drop(xs, "changes")), Obj(Drop(ys, "changes")))
  {
    var us, vs := Drop(xs, "changes"), Drop(ys, "changes");
    MaskingHidesExactly(lower, Get(xs, "changes"), Get(ys, "changes"));
    MaskingHidesExactly(lower, Obj(us), Obj(vs));
    if us == [] || vs == [] {
      KindKept(lower, us);
      KindKept(lower, vs);
    }
  }
}
