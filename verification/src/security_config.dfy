/** `config/security_config.py`: the recursive masking of sensitive
    fields before data is logged.  The CORS, rate-limit, header and
    input-validation tables are plain constants that nothing here reads.

    Dictionary keys are strings here; Python would raise on `k.lower()`
    for any other key type. */
module SecurityConfig {
  import opened Json
  import Dicts
  import Text

  const SensitiveFields: seq<string> :=
    ["password", "api_key", "secret", "token", "private_key", "access_key", "credential"]

  /** A key is sensitive when its lower-cased form contains one of the
      sensitive field names. */
  predicate Sensitive(k: string) {
    exists i :: 0 <= i < |SensitiveFields| && Text.Contains(Text.Lower(k), SensitiveFields[i])
  }

  const Stars: Value := Str("***")

  /** `mask_sensitive_data`: dictionaries keep their keys in order, with the
      value of a sensitive key replaced by "***" and every other value
      masked in turn; lists are masked element by element; anything else
      is returned as it is. */
  function Mask(v: Value): (r: Value)
    ensures !v.Obj? && !v.List? ==> r == v
    ensures v.List? <==> r.List?
    ensures v.Obj? <==> r.Obj?
    ensures v.List? ==> |r.items| == |v.items| && forall i :: 0 <= i < |v.items| ==> r.items[i] == Mask(v.items[i])
    ensures v.Obj? ==> Dicts.Keys(r.fields) == Dicts.Keys(v.fields)
    ensures v.Obj? ==> forall i :: 0 <= i < |v.fields| ==>
              r.fields[i].1 == if Sensitive(v.fields[i].0) then Stars else Mask(v.fields[i].1)
  {
    match v
    case List(items) => List(seq(|items|, i requires 0 <= i < |items| => Mask(items[i])))
    case Obj(fields) =>
      Obj(seq(|fields|, i requires 0 <= i < |fields| =>
        (fields[i].0, if Sensitive(fields[i].0) then Stars else Mask(fields[i].1))))
    case _ => v
  }

  /** Every sensitive key, at any depth, already holds "***". */
  predicate Masked(v: Value) {
    match v
    case List(items) => forall i :: 0 <= i < |items| ==> Masked(items[i])
    case Obj(fields) =>
      forall i :: 0 <= i < |fields| ==>
        if Sensitive(fields[i].0) then fields[i].1 == Stars else Masked(fields[i].1)
    case _ => true
  }

  /** Masking leaves no sensitive value behind. */
  lemma {:induction false} MaskMasks(v: Value)
    ensures Masked(Mask(v))
  {
    match v
    case List(items) =>
      forall i | 0 <= i < |items| ensures Masked(Mask(v).items[i]) {
        MaskMasks(items[i]);
      }
    case Obj(fields) =>
      var r := Mask(v);
      forall i | 0 <= i < |fields| && !Sensitive(fields[i].0) ensures Masked(r.fields[i].1) {
        MaskMasks(fields[i].1);
      }
      assert forall i :: 0 <= i < |fields| ==> r.fields[i].0 == fields[i].0;
    case _ =>
  }

  /** Data whose sensitive values are already masked comes back unchanged. */
  lemma {:induction false} MaskFixes(v: Value)
    requires Masked(v)
    ensures Mask(v) == v
  {
    match v
    case List(items) =>
      forall i | 0 <= i < |items| ensures Mask(items[i]) == items[i] {
        MaskFixes(items[i]);
      }
      assert Mask(v).items == items;
    case Obj(fields) =>
      var r := Mask(v);
      forall i | 0 <= i < |fields| ensures r.fields[i] == fields[i] {
        if !Sensitive(fields[i].0) {
          MaskFixes(fields[i].1);
        }
      }
      assert r.fields == fields;
    case _ =>
  }

  /** Masking changes nothing exactly when every sensitive value is already
      "***", and masking twice is masking once. */
  lemma MaskFixedIff(v: Value)
    ensures Mask(v) == v <==> Masked(v)
    ensures Mask(Mask(v)) == Mask(v)
  {
    MaskMasks(v);
    MaskFixes(Mask(v));
    if Masked(v) {
      MaskFixes(v);
    }
  }
}
