/** Masking of sensitive values in logged JSON. */
module Masking {
  import opened Text

  datatype Json =
    | Null
    | Bool(b: bool)
    | Number(n: real)
    | Str(s: string)
    | Arr(items: seq<Json>)
    | Obj(fields: map<string, Json>)

  const SENSITIVE_KEYS: set<string> := {
    "password", "new_password", "current_password", "access_token", "refresh_token",
    "authorization", "cookie", "search_criteria", "metadata", "flights"
  }

  predicate Sensitive(key: string) {
    ToLower(key) in SENSITIVE_KEYS
  }

  /** Exactly these names are sensitive, in any letter case. */
  lemma SensitiveIff(key: string)
    ensures Sensitive(key) <==>
            || EqualFold(key, "password") || EqualFold(key, "new_password") || EqualFold(key, "current_password")
            || EqualFold(key, "access_token") || EqualFold(key, "refresh_token")
            || EqualFold(key, "authorization") || EqualFold(key, "cookie")
            || EqualFold(key, "search_criteria") || EqualFold(key, "metadata") || EqualFold(key, "flights")
  {
    assert forall s :: s in SENSITIVE_KEYS ==> ToLower(s) == s;
  }

  function MaskData(v: Json): (r: Json) {
    match v
    case Obj(fields) =>
      Obj(map k | k in fields :: if Sensitive(k) then Str("***") else MaskData(fields[k]))
    case Arr(items) =>
      Arr(seq(|items|, i requires 0 <= i < |items| => MaskData(items[i])))
    case _ => v
  }

  /** Two trees that differ at most beneath sensitive keys. */
  predicate AgreeOutside(v: Json, w: Json) {
    match v
    case Obj(fields) =>
      && w.Obj? && w.fields.Keys == fields.Keys
      && forall k :: k in fields ==> Sensitive(k) || AgreeOutside(fields[k], w.fields[k])
    case Arr(items) =>
      && w.Arr? && |w.items| == |items|
      && forall i :: 0 <= i < |items| ==> AgreeOutside(items[i], w.items[i])
    case _ => v == w
  }

  ghost predicate HidesExactly(v: Json, w: Json) {
    MaskData(v) == MaskData(w) <==> AgreeOutside(v, w)
  }

  lemma ObjHidesExactly(v: map<string, Json>, w: map<string, Json>)
    requires forall k :: k in v && k in w ==> HidesExactly(v[k], w[k])
    ensures HidesExactly(Obj(v), Obj(w))
  {
    var m, n := MaskData(Obj(v)).fields, MaskData(Obj(w)).fields;
    assert m.Keys == v.Keys && n.Keys == w.Keys;
    if m == n {
      assert forall k :: k in v ==> m[k] == n[k];
    }
    if AgreeOutside(Obj(v), Obj(w)) {
      assert m == n;
    }
  }

  lemma ArrHidesExactly(v: seq<Json>, w: seq<Json>)
    requires forall i :: 0 <= i < |v| && i < |w| ==> HidesExactly(v[i], w[i])
    ensures HidesExactly(Arr(v), Arr(w))
  {
    var m, n := MaskData(Arr(v)).items, MaskData(Arr(w)).items;
    assert |m| == |v| && |n| == |w|;
    assert forall i :: 0 <= i < |v| ==> m[i] == MaskData(v[i]);
    assert forall i :: 0 <= i < |w| ==> n[i] == MaskData(w[i]);
    if AgreeOutside(Arr(v), Arr(w)) {
      assert m == n;
    }
  }

  /** Exactly the trees that differ only beneath sensitive keys are logged alike. */
  lemma {:induction false} MaskHidesExactly(v: Json, w: Json)
    ensures MaskData(v) == MaskData(w) <==> AgreeOutside(v, w)
  {
    if v.Obj? && w.Obj? {
      forall k | k in v.fields && k in w.fields
        ensures HidesExactly(v.fields[k], w.fields[k])
      {
        MaskHidesExactly(v.fields[k], w.fields[k]);
      }
      ObjHidesExactly(v.fields, w.fields);
    } else if v.Arr? && w.Arr? {
      forall i | 0 <= i < |v.items| && i < |w.items|
        ensures HidesExactly(v.items[i], w.items[i])
      {
        MaskHidesExactly(v.items[i], w.items[i]);
      }
      ArrHidesExactly(v.items, w.items);
    }
  }

  /** Masking keeps the tree outside sensitive values: shape, keys and leaves. */
  lemma {:induction false} MaskKeepsRest(v: Json)
    ensures AgreeOutside(v, MaskData(v))
  {
    match v
    case Obj(fields) =>
      forall k | k in fields
        ensures AgreeOutside(fields[k], MaskData(fields[k]))
      {
        MaskKeepsRest(fields[k]);
      }
    case Arr(items) =>
      forall i | 0 <= i < |items|
        ensures AgreeOutside(items[i], MaskData(items[i]))
      {
        MaskKeepsRest(items[i]);
      }
    case _ =>
  }

  /** Masking twice is masking once. */
  lemma MaskIdempotent(v: Json)
    ensures MaskData(MaskData(v)) == MaskData(v)
  {
    MaskKeepsRest(v);
    MaskHidesExactly(v, MaskData(v));
  }

  /** Nothing under a sensitive key survives, however the key is written, at any depth. */
  ghost predicate FullyMasked(v: Json) {
    match v
    case Obj(fields) =>
      forall k :: k in fields ==> if Sensitive(k) then fields[k] == Str("***") else FullyMasked(fields[k])
    case Arr(items) => forall i :: 0 <= i < |items| ==> FullyMasked(items[i])
    case _ => true
  }

  /** Masking masks everything, and only what is fully masked is left alone. */
  lemma {:induction false} MaskedExactly(v: Json)
    ensures FullyMasked(MaskData(v))
    ensures MaskData(v) == v <==> FullyMasked(v)
  {
    match v
    case Obj(fields) =>
      forall k | k in fields
        ensures FullyMasked(MaskData(fields[k]))
        ensures MaskData(fields[k]) == fields[k] <==> FullyMasked(fields[k])
      {
        MaskedExactly(fields[k]);
      }
      assert MaskData(v).fields.Keys == fields.Keys;
      if MaskData(v) == v {
        assert forall k :: k in fields ==> MaskData(v).fields[k] == fields[k];
      }
      if FullyMasked(v) {
        assert MaskData(v).fields == fields;
      }
    case Arr(items) =>
      forall i | 0 <= i < |items|
        ensures FullyMasked(MaskData(items[i]))
        ensures MaskData(items[i]) == items[i] <==> FullyMasked(items[i])
      {
        MaskedExactly(items[i]);
      }
      assert forall i :: 0 <= i < |items| ==> MaskData(v).items[i] == MaskData(items[i]);
      if FullyMasked(v) {
        assert MaskData(v).items == items;
      }
    case _ =>
  }
}
