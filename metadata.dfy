/**
 * The records of `json/file_system.json`, written by `generate_fs_json.py`
 * and read by `controller/controller.py`.  The fields the controller reads
 * with `dict.get` are `Option`s (`None` for a missing key or JSON `null`);
 * the rest have the types the generator writes.
 */
module Metadata {
  import opened Wrappers

  /** One element of an entry's `error_variants`. */
  datatype Variant = Variant(
    errnoName: Option<string>,
    errnoNum: Option<int>,
    kernelRet: int,
    userspaceReturnPattern: string,
    source: string,
    note: string,
    forceable: bool,
    sideEffects: string,
    safetyLevel: string)

  /** One syscall entry. */
  datatype Entry = Entry(
    name: Option<string>,
    canonicalGuess: Option<string>,
    symbolToProbe: Option<string>,
    probeable: bool,
    category: Option<string>,
    nrArgs: int,
    args: seq<string>,
    returnType: string,
    forceableByType: bool,
    sideEffectsNote: string,
    errorVariants: Option<seq<Variant>>,
    probeCommandsSuggestion: Option<string>,
    notes: string)

  /** Python truthiness of an optional string: present and non-empty. */
  predicate Truthy(s: Option<string>) {
    s.Some? && s.value != ""
  }
}
