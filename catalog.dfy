/**
 * The variable catalog: one descriptor per lower-case variable name, fixed
 * at process start, together with the error and warning kinds the layer
 * reports and the names the validator dispatches on.
 */
module Catalog {
  import opened Wrappers
  import opened Text

  /**
   * The four scopes. The source encodes them as bit flags (`ScopeGlobal` = 1,
   * `ScopeSession` = 2, both = 3, `ScopeNone` = 0); `HasGlobal` is the test
   * `scope & ScopeGlobal != 0`.
   */
  datatype Scope = ScopeNone | ScopeGlobal | ScopeSession | ScopeBoth

  predicate HasGlobal(scope: Scope)
  {
    scope.ScopeGlobal? || scope.ScopeBoth?
  }

  /** A variable descriptor: its name, its compiled-in default and its scope. */
  datatype SysVar = SysVar(name: string, value: string, scope: Scope)

  /** The immutable catalog `SysVars`, keyed by lower-case name. */
  type Catalog = map<string, SysVar>

  /** `GetSysVar`: the descriptor of a name in any case. */
  function GetSysVar(cat: Catalog, name: string): (r: Option<SysVar>)
    ensures r.Some? <==> Lower(name) in cat
    ensures r.Some? ==> r.value == cat[Lower(name)]
  {
    var key := Lower(name);
    if key in cat then Some(cat[key]) else None
  }

  /**
   * The error kinds, with the arguments the source formats into them. An
   * absent argument is an error the source raises without arguments.
   */
  datatype Error =
    | UnknownSystemVar(unknown: Option<string>)
    | IncorrectScope(variable: string, required: string)
    | WrongTypeForVar(variable: string)
    | WrongValueForVar(variable: string, offending: Option<string>)
    | ReadOnly(variable: string)
    | AccessorError(reason: string)
    | ConfigError(reason: string)
    | TimeError(reason: string)

  /** The one warning kind: an out-of-range value was clamped. */
  datatype Warning = TruncatedWrongValue(variable: string, given: string)

  // Names of the variables the validator and the read path treat specially.

  const DefaultWeekFormat: string := "default_week_format"
  const DelayKeyWrite: string := "delay_key_write"
  const FlushTime: string := "flush_time"
  const GroupConcatMaxLen: string := "group_concat_max_len"
  const InteractiveTimeout: string := "interactive_timeout"
  const MaxConnections: string := "max_connections"
  const MaxSortLength: string := "max_sort_length"
  const MaxSpRecursionDepth: string := "max_sp_recursion_depth"
  const OldPasswords: string := "old_passwords"
  const MaxUserConnections: string := "max_user_connections"
  const SessionTrackGtids: string := "session_track_gtids"
  const TimeZone: string := "time_zone"
  const WarningCount: string := "warning_count"
  const ErrorCount: string := "error_count"
  const GeneralLog: string := "general_log"
  const ForeignKeyChecks: string := "foreign_key_checks"
  const AutocommitVar: string := "autocommit"
  const TiDBDDLReorgWorkerCount: string := "tidb_ddl_reorg_worker_cnt"
  const TiDBRetryLimit: string := "tidb_retry_limit"
  const TiDBCurrentTS: string := "tidb_current_ts"
  const TiDBGeneralLog: string := "tidb_general_log"
  const TiDBConfig: string := "tidb_config"

  /** The virtual variables, computed on every read and never stored. */
  const VirtualVars: set<string> := {TiDBCurrentTS, TiDBGeneralLog, TiDBConfig}

  /** Counters that no statement may set. */
  const ReadOnlyVars: set<string> := {WarningCount, ErrorCount}

  /** Switches stored in their digit form "1" or "0". */
  const OnOffVars: set<string> := {
    GeneralLog, "avoid_temporal_upgrade", "big_tables", "check_proxy_users", "core_file",
    "end_markers_in_json", "sql_log_bin", "offline_mode", "pseudo_slave_mode",
    "low_priority_updates", "skip_name_resolve", ForeignKeyChecks, "sql_safe_updates"
  }

  /** Switches stored exactly as the statement spelled them. */
  const SwitchVars: set<string> := {
    AutocommitVar, "tidb_import_data", "tidb_skip_utf8_check", "tidb_opt_agg_push_down",
    "tidb_opt_insubquery_unfold", "tidb_enable_table_partition", "tidb_batch_insert",
    "tidb_disable_txn_auto_retry", "tidb_enable_streaming", "tidb_batch_delete"
  }

  /** Integers that must be greater than zero. */
  const PositiveIntVars: set<string> := {
    "tidb_index_lookup_concurrency", "tidb_index_lookup_join_concurrency",
    "tidb_index_join_batch_size", "tidb_index_lookup_size", "tidb_hash_join_concurrency",
    "tidb_hashagg_partial_concurrency", "tidb_hashagg_final_concurrency",
    "tidb_distsql_scan_concurrency", "tidb_index_serial_scan_concurrency",
    TiDBDDLReorgWorkerCount, "tidb_backoff_lock_fast", "tidb_max_chunk_size",
    "tidb_dml_batch_size", "tidb_optimizer_selectivity_level", TiDBGeneralLog
  }

  /** Integers that need only parse as signed 64-bit numbers. */
  const Int64Vars: set<string> := {
    "tidb_projection_concurrency", "tidb_mem_quota_query", "tidb_mem_quota_hashjoin",
    "tidb_mem_quota_mergejoin", "tidb_mem_quota_sort", "tidb_mem_quota_topn",
    "tidb_mem_quota_indexlookupreader", "tidb_mem_quota_indexlookupjoin",
    "tidb_mem_quota_nestedloopapply", TiDBRetryLimit
  }
}
