/** The per-field error record both login pages keep
    (`Record<string, string>`), and the rule that editing a field clears
    that field's message. */
module FormErrors {

  /** JavaScript truthiness of `errors[name]`: the key is present and its
      message is not the empty string. */
  predicate HasError<K>(errs: map<K, string>, k: K) {
    k in errs && errs[k] != ""
  }

  /** The clear-on-edit step of both change handlers: only a field that
      shows an error is touched, its key stays present with an empty
      message, and every other entry is left as it was. */
  function ClearError<K>(errs: map<K, string>, k: K): (r: map<K, string>)
    ensures r.Keys == errs.Keys
    ensures !HasError(r, k)
    ensures k in r ==> r[k] == ""
    ensures forall j :: j in errs && j != k ==> r[j] == errs[j]
    ensures !HasError(errs, k) ==> r == errs
  {
    if HasError(errs, k) then errs[k := ""] else errs
  }

  /** `Object.keys(newErrors).length > 0`: validation found a problem. */
  predicate AnyErrors<K>(errs: map<K, string>) {
    |errs| > 0
  }
}
