/**
 * env.go: the command-line switches that decide whether a duplicate or an
 * unknown-reference error is fatal, and FilterError, which applies them.
 */
module Env {
  import opened Types
  import opened Errors

  /** The ShowWarnings, ErrorOnDuplicate and ErrorOnUnknown flags. */
  datatype Config = Config(showWarnings: bool, errorOnDuplicate: bool, errorOnUnknown: bool)

  /** What FilterError returns, and whether it wrote its warning to the log. */
  datatype Filtered = Filtered(result: Option<Error>, logged: bool)

  /**
   * FilterError: a duplicate error stays fatal only under ErrorOnDuplicate
   * and an unknown-reference error only under ErrorOnUnknown; every other
   * error, and nil, comes back as it is. A demoted error is logged when
   * ShowWarnings is set.
   */
  function FilterError(cfg: Config, err: Option<Error>): (r: Filtered)
    ensures err.None? ==> r == Filtered(None, false)
    ensures err.Some? && !IsDuplicate(err.value) && !IsUnknown(err.value) ==> r == Filtered(err, false)
    ensures err.Some? && IsDuplicate(err.value) ==> (r.result == err <==> cfg.errorOnDuplicate)
    ensures err.Some? && IsUnknown(err.value) ==> (r.result == err <==> cfg.errorOnUnknown)
    ensures r.result.None? || r.result == err
    ensures r.logged <==> err.Some? && r.result.None? && cfg.showWarnings
  {
    match err
    case None => Filtered(None, false)
    case Some(e) =>
      if IsDuplicate(e) then
        if cfg.errorOnDuplicate then Filtered(err, false) else Filtered(None, cfg.showWarnings)
      else if IsUnknown(e) then
        if cfg.errorOnUnknown then Filtered(err, false) else Filtered(None, cfg.showWarnings)
      else Filtered(err, false)
  }

  /** The error stays fatal exactly when its class is not demoted by the flags. */
  predicate Fatal(cfg: Config, e: Error) {
    (IsDuplicate(e) ==> cfg.errorOnDuplicate) && (IsUnknown(e) ==> cfg.errorOnUnknown)
  }

  lemma FilterErrorFatal(cfg: Config, e: Error)
    ensures FilterError(cfg, Some(e)).result.Some? <==> Fatal(cfg, e)
  {
  }

  /** Filtering a filtered error changes nothing and logs nothing more. */
  lemma FilterErrorIdempotent(cfg: Config, err: Option<Error>)
    ensures FilterError(cfg, FilterError(cfg, err).result).result == FilterError(cfg, err).result
    ensures !FilterError(cfg, FilterError(cfg, err).result).logged
  {
  }
}
