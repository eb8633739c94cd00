/** `chooseVariantForParticipant` (app.js:133-143): one stimulus row per
    (participant, identity, method), chosen by hashing the three ids. */
module Variant {
  import opened Hash
  import opened Rows
  import opened Seqs

  /** The hashed key `${pid}|${identityId}|${methodName}`. */
  function VariantKey(pid: string, identityId: string, methodName: string): string {
    pid + "|" + identityId + "|" + methodName
  }

  /** `null` for no variants, the only one for a single variant, otherwise the
      variant at the hash of the key modulo the number of variants. */
  function ChooseVariant(pid: string, identityId: string, methodName: string, variants: seq<Row>): (r: Option<Row>)
    ensures r.None? <==> variants == []
    ensures |variants| == 1 ==> r == Some(variants[0])
    ensures r.Some? ==> r.value in variants
  {
    if |variants| == 0 then None
    else if |variants| == 1 then Some(variants[0])
    else
      var index := Cyrb53(VariantKey(pid, identityId, methodName)) % |variants|;
      Some(variants[index])
  }

  /** The single-variant shortcut changes nothing: for every non-empty list the
      choice is the variant at `cyrb53(key) % length`, since any number modulo 1
      is 0. The choice depends on nothing but the three ids and the list. */
  lemma ChooseVariantByHash(pid: string, identityId: string, methodName: string, variants: seq<Row>)
    requires variants != []
    ensures ChooseVariant(pid, identityId, methodName, variants)
            == Some(variants[Cyrb53(VariantKey(pid, identityId, methodName)) % |variants|])
  {
    var h := Cyrb53(VariantKey(pid, identityId, methodName));
    if |variants| == 1 {
      assert h % 1 == 0;
    }
  }
}
