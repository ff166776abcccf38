/**
  `SessionExecuteRequest.__handle_deprecated_var_async`: the validator that runs on the
  raw field values before the request is built. A truthy `var_async` is deprecated: it
  warns, and it moves into `run_async` unless `run_async` is already truthy. The
  values dict is changed in place and returned.

  `warnings.warn` is modelled by the flag the method returns.
 */
module SessionRequest {
  import opened PyValues

  const VAR_ASYNC := "var_async"
  const RUN_ASYNC := "run_async"

  /** `"var_async" in values and values.get("var_async")` */
  predicate Warns(values: map<string, Value>) {
    VAR_ASYNC in values && Truthy(values[VAR_ASYNC])
  }

  /** The values after the validator: what the dict holds once the method returns. */
  function Migrated(values: map<string, Value>): map<string, Value> {
    if Warns(values) && (RUN_ASYNC !in values || !Truthy(values[RUN_ASYNC])) then
      (values - {VAR_ASYNC})[RUN_ASYNC := values[VAR_ASYNC]]
    else
      values
  }

  /** The dict of raw values the validator receives and mutates. */
  class RequestValues {
    var entries: map<string, Value>

    constructor (entries: map<string, Value>)
      ensures this.entries == entries
    {
      this.entries := entries;
    }

    /** `__handle_deprecated_var_async(values)`: returns the same dict, and whether it warned. */
    method HandleDeprecatedVarAsync() returns (result: RequestValues, warned: bool)
      modifies this
      ensures result == this
      ensures entries == Migrated(old(entries))
      ensures warned == Warns(old(entries))
    {
      warned := false;
      if VAR_ASYNC in entries && Truthy(Get(entries, VAR_ASYNC)) {
        warned := true;
        if RUN_ASYNC !in entries || !Truthy(entries[RUN_ASYNC]) {
          var varAsync := entries[VAR_ASYNC];
          entries := entries - {VAR_ASYNC};
          entries := entries[RUN_ASYNC := varAsync];
        }
      }
      result := this;
    }
  }

  /**
    The three cases: a missing or falsy `var_async` changes nothing and does not warn; a
    truthy one warns, and replaces a missing or falsy `run_async`, leaving the dict
    without `var_async`; next to a truthy `run_async` it is left as it is.
   */
  lemma MigrationCases(values: map<string, Value>)
    ensures !Truthy(Get(values, VAR_ASYNC)) ==> !Warns(values) && Migrated(values) == values
    ensures Truthy(Get(values, VAR_ASYNC)) && !Truthy(Get(values, RUN_ASYNC)) ==>
      && Warns(values)
      && VAR_ASYNC !in Migrated(values)
      && Migrated(values)[RUN_ASYNC] == values[VAR_ASYNC]
    ensures Truthy(Get(values, VAR_ASYNC)) && Truthy(Get(values, RUN_ASYNC)) ==>
      Warns(values) && Migrated(values) == values
  {
  }

  /** Keys other than `var_async` and `run_async` are untouched. */
  lemma OtherKeysUnchanged(values: map<string, Value>, key: string)
    requires key != VAR_ASYNC && key != RUN_ASYNC
    ensures key in Migrated(values) <==> key in values
    ensures key in values ==> Migrated(values)[key] == values[key]
  {
  }

  /**
    The request runs asynchronously afterwards exactly when either flag asked for it
    before, and a truthy `var_async` is never left beside a falsy `run_async`.
   */
  lemma EffectiveRunAsync(values: map<string, Value>)
    ensures Truthy(Get(Migrated(values), RUN_ASYNC)) <==>
      Truthy(Get(values, RUN_ASYNC)) || Truthy(Get(values, VAR_ASYNC))
    ensures !(Truthy(Get(Migrated(values), VAR_ASYNC)) && !Truthy(Get(Migrated(values), RUN_ASYNC)))
  {
  }

  /**
    Running the validator on its own output changes nothing more; it warns again only
    when both flags were truthy, since then `var_async` stays.
   */
  lemma MigrationIdempotent(values: map<string, Value>)
    ensures Migrated(Migrated(values)) == Migrated(values)
    ensures Warns(Migrated(values)) <==> Warns(values) && Truthy(Get(values, RUN_ASYNC))
  {
  }
}
