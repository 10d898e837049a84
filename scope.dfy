/**
 * Scope decisions over the catalog: whether a name may be read in a
 * session or global context (`ValidateGetSystemVar`), the default of an
 * immutable constant (`GetScopeNoneSystemVar`), and the global read path
 * (`GetGlobalSystemVar`), which reaches the global store only through an
 * accessor supplied by the caller.
 */
module Scope {
  import opened Wrappers
  import opened Text
  import opened Catalog

  /** The `(value, ok, err)` triple of the session-only and scope-none reads. */
  datatype Lookup = Found(value: string) | NotFound | Failed(error: Error)

  /** `GlobalVarsAccessor.GetGlobalSysVar`: the global store, read by name, which may fail. */
  type Accessor = string -> Result<string, Error>

  /**
   * `ValidateGetSystemVar(name, isGlobal)`: a global-only variable or a
   * constant may be read only by a global statement; a session-only variable
   * only by a session statement; a variable of both scopes by either.
   */
  function ValidateGetSystemVar(cat: Catalog, name: string, isGlobal: bool): (r: Outcome<Error>)
    ensures name !in cat ==> r == Fail(UnknownSystemVar(Some(name)))
    ensures name in cat && (cat[name].scope.ScopeGlobal? || cat[name].scope.ScopeNone?) ==>
      (r.Fail? <==> !isGlobal)
    ensures name in cat && cat[name].scope.ScopeSession? ==> (r.Fail? <==> isGlobal)
    ensures name in cat && cat[name].scope.ScopeBoth? ==> r == Pass
    ensures name in cat && r.Fail? ==> r.error == IncorrectScope(name, if isGlobal then "SESSION" else "GLOBAL")
  {
    if name !in cat then Fail(UnknownSystemVar(Some(name)))
    else
      match cat[name].scope
      case ScopeGlobal | ScopeNone => if !isGlobal then Fail(IncorrectScope(name, "GLOBAL")) else Pass
      case ScopeSession => if isGlobal then Fail(IncorrectScope(name, "SESSION")) else Pass
      case ScopeBoth => Pass
  }

  /** Every catalogued variable is readable in some context, and in both exactly when its scope is both. */
  lemma ReadableSomewhere(cat: Catalog, name: string)
    requires name in cat
    ensures ValidateGetSystemVar(cat, name, true).Pass? || ValidateGetSystemVar(cat, name, false).Pass?
    ensures ValidateGetSystemVar(cat, name, true).Pass? && ValidateGetSystemVar(cat, name, false).Pass?
            <==> cat[name].scope.ScopeBoth?
  {
  }

  /** `GetScopeNoneSystemVar(key)`: the default of a constant, nothing for any other known name. */
  function GetScopeNoneSystemVar(cat: Catalog, key: string): (r: Lookup)
    ensures key !in cat <==> r == Failed(UnknownSystemVar(Some(key)))
    ensures r.Found? <==> key in cat && cat[key].scope.ScopeNone?
    ensures r.Found? ==> r.value == cat[key].value
  {
    if key !in cat then Failed(UnknownSystemVar(Some(key)))
    else if cat[key].scope.ScopeNone? then Found(cat[key].value)
    else NotFound
  }

  /**
   * `GetGlobalSystemVar(s, key)`: an unknown name is an error, a constant
   * yields its default without reaching the store, and any other variable is
   * whatever the accessor answers for its lower-case name.
   */
  function GetGlobalSystemVar(cat: Catalog, fetch: Accessor, key: string): (r: Result<string, Error>)
    ensures Lower(key) !in cat ==> r == Err(UnknownSystemVar(Some(Lower(key))))
    ensures Lower(key) in cat && cat[Lower(key)].scope.ScopeNone? ==> r == Ok(cat[Lower(key)].value)
    ensures Lower(key) in cat && !cat[Lower(key)].scope.ScopeNone? ==> r == fetch(Lower(key))
  {
    var k := Lower(key);
    match GetScopeNoneSystemVar(cat, k)
    case Failed(e) => Err(e)
    case Found(v) => Ok(v)
    case NotFound => fetch(k)
  }

  /** The global read of a name does not depend on how the name is capitalised. */
  lemma GlobalReadIgnoresCase(cat: Catalog, fetch: Accessor, key: string)
    ensures GetGlobalSystemVar(cat, fetch, key) == GetGlobalSystemVar(cat, fetch, Lower(key))
  {
    LowerIdempotent(key);
  }

  /** A constant's global value is the same whatever the store holds. */
  lemma ConstantsIgnoreStore(cat: Catalog, fetch1: Accessor, fetch2: Accessor, key: string)
    requires Lower(key) in cat && cat[Lower(key)].scope.ScopeNone?
    ensures GetGlobalSystemVar(cat, fetch1, key) == GetGlobalSystemVar(cat, fetch2, key)
  {
  }
}
