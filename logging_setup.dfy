/**
 * The project's logging set-up: the level filters the handlers use, the
 * custom levels added to the logging module, and the one-time initialisation
 * `get_logger` guards with `first_logging_call`.
 */
module LoggingSetup {
  import opened Wrappers
  import opened Text

  // ---------------------------------------------------------------------
  // Level filters
  // ---------------------------------------------------------------------

  /** `_ExcludeInfoPlusFilter`, `_ExcludeWarningsPlusFilter`, `_ExcludeErrorPlusFilter`: levels below 20, 30, 40. */
  predicate ExcludeInfoPlus(level: int) { level < 20 }
  predicate ExcludeWarningsPlus(level: int) { level < 30 }
  predicate ExcludeErrorPlus(level: int) { level < 40 }

  /** `_ExcludeChannelsFilter`. */
  predicate ExcludeChannels(level: int) { level != 21 }

  /** `_IncludeOnlyAuthFilter`. */
  predicate IncludeOnlyAuth(level: int) { level == 25 || level == 35 || level == 45 }

  /** `_ExcludeAuthFilter`. */
  predicate ExcludeAuth(level: int) { level != 25 && level != 35 && level != 45 }

  /** The auth log and the other logs split the records between them: each record goes to exactly one. */
  lemma AuthFiltersComplement(level: int)
    ensures IncludeOnlyAuth(level) <==> !ExcludeAuth(level)
    ensures IncludeOnlyAuth(level) <==> level in AuthLevels()
  {
    assert AuthLevels() == {25, 35, 45} by {
      assert CustomLevels[1].1 in AuthLevels() && CustomLevels[2].1 in AuthLevels() && CustomLevels[3].1 in AuthLevels();
    }
  }

  /** The level numbers of the custom levels after CHANNELS: AUTH_INFO, AUTH_WARNING and AUTH_ERROR. */
  function AuthLevels(): set<int> {
    set i | 1 <= i < |CustomLevels| :: CustomLevels[i].1
  }

  /** The "below" filters nest, and CHANNELS (21) is dropped only by its own filter among the ones that could see it. */
  lemma FiltersNest(level: int)
    ensures ExcludeInfoPlus(level) ==> ExcludeWarningsPlus(level)
    ensures ExcludeWarningsPlus(level) ==> ExcludeErrorPlus(level)
    ensures !ExcludeChannels(level) <==> level == 21
    ensures level == 21 ==> ExcludeWarningsPlus(level) && !ExcludeInfoPlus(level) && ExcludeAuth(level)
  {
  }

  // ---------------------------------------------------------------------
  // Custom levels and initialisation
  // ---------------------------------------------------------------------

  /** The levels `_initialize_logger_settings` adds, in order. */
  const CustomLevels: seq<(string, int)> := [("CHANNELS", 21), ("AUTH_INFO", 25), ("AUTH_WARNING", 35), ("AUTH_ERROR", 45)]

  const LogDirMessage := "Logging dir is none. Cannot setup logging."

  /** The method name a level gets: the one given, or the lower-cased level name when none (or '') is given. */
  function MethodName(levelName: string, methodName: Option<string>): (r: string)
    ensures methodName.Some? && methodName.value != "" ==> r == methodName.value
    ensures methodName.None? || methodName.value == "" ==> |r| == |levelName| && forall i :: 0 <= i < |r| ==> r[i] == LowerChar(levelName[i])
  {
    if methodName.None? || methodName.value == "" then Lower(levelName) else methodName.value
  }

  /** Neither name is on the module, and the method name is not on the logger class. */
  predicate Unused(moduleNames: set<string>, loggerMethods: set<string>, levelName: string, methodName: string) {
    levelName !in moduleNames && methodName !in moduleNames && methodName !in loggerMethods
  }

  /** Adding a level whose names differ in length from `n` and `m` leaves them unused. */
  lemma StillUnused(moduleNames: set<string>, loggerMethods: set<string>, n0: string, m0: string, n: string, m: string)
    requires Unused(moduleNames, loggerMethods, n, m)
    requires |n| != |n0| && |n| != |m0| && |m| != |n0| && |m| != |m0|
    ensures Unused(moduleNames + {n0, m0}, loggerMethods + {m0}, n, m)
  {
  }

  /** Whether the custom levels all stand recorded under their numbers. */
  predicate HasCustomLevels(levels: map<string, int>) {
    Records(levels, CustomLevels[0]) && Records(levels, CustomLevels[1])
    && Records(levels, CustomLevels[2]) && Records(levels, CustomLevels[3])
  }

  predicate Records(levels: map<string, int>, level: (string, int)) {
    level.0 in levels && levels[level.0] == level.1
  }

  /** The parts of the process-wide logging state the set-up touches. */
  class LoggingState {
    /** Names defined on the `logging` module (level names and module-level functions). */
    var moduleNames: set<string>
    /** Methods of the logger class. */
    var loggerMethods: set<string>
    /** Level numbers of the named levels, as `setattr(logging, name, num)` records them. */
    var levels: map<string, int>
    /** Level names by number, as `addLevelName` records them. */
    var levelNames: map<int, string>
    /** `first_logging_call`. */
    var firstLoggingCall: bool

    constructor (moduleNames: set<string>, loggerMethods: set<string>)
      ensures this.moduleNames == moduleNames && this.loggerMethods == loggerMethods
      ensures levels == map[] && levelNames == map[] && firstLoggingCall
    {
      this.moduleNames := moduleNames;
      this.loggerMethods := loggerMethods;
      levels := map[];
      levelNames := map[];
      firstLoggingCall := true;
    }

    /** Every recorded level is a module name. */
    predicate Valid()
      reads this
    {
      levels.Keys <= moduleNames
    }

    /** Whether a level of this name and method name can still be added. */
    predicate CanAdd(levelName: string, methodName: string)
      reads this
    {
      Unused(moduleNames, loggerMethods, levelName, methodName)
    }

    /**
     * `add_logging_level`: refuses a level or method name already defined;
     * otherwise names the level number and adds the level name and the
     * method to the module and the logger class.
     */
    method AddLoggingLevel(levelName: string, levelNum: int, methodName: Option<string>) returns (r: Result<()>)
      requires Valid()
      modifies this`moduleNames, this`loggerMethods, this`levels, this`levelNames
      ensures Valid()
      ensures var m := MethodName(levelName, methodName);
              r.Ok? <==> old(CanAdd(levelName, m))
      ensures old(levelName in moduleNames) ==> r == Err(AttributeError(levelName + " already defined in logging module"))
      ensures r.Err? ==> r.error.AttributeError? && unchanged(this)
      ensures r.Ok? ==>
                var m := MethodName(levelName, methodName);
                moduleNames == old(moduleNames) + {levelName, m}
                && loggerMethods == old(loggerMethods) + {m}
                && levels == old(levels)[levelName := levelNum]
                && levelNames == old(levelNames)[levelNum := levelName]
    {
      var m := MethodName(levelName, methodName);
      if levelName in moduleNames {
        return Err(AttributeError(levelName + " already defined in logging module"));
      }
      if m in moduleNames {
        return Err(AttributeError(m + " already defined in logging module"));
      }
      if m in loggerMethods {
        return Err(AttributeError(m + " already defined in logger class"));
      }
      levelNames := levelNames[levelNum := levelName];
      levels := levels[levelName := levelNum];
      loggerMethods := loggerMethods + {m};
      moduleNames := moduleNames + {levelName, m};
      r := Ok(());
    }

    /** Whether none of the custom levels' names or method names is taken yet. */
    predicate CustomLevelsFree()
      reads this
    {
      FreeFor(CustomLevels[0].0) && FreeFor(CustomLevels[1].0) && FreeFor(CustomLevels[2].0) && FreeFor(CustomLevels[3].0)
    }

    /** Whether a level of this name, with its default method name, can still be added. */
    predicate FreeFor(levelName: string)
      reads this
    {
      CanAdd(levelName, MethodName(levelName, None))
    }


    /**
     * The four `add_logging_level` calls of `_initialize_logger_settings`, in
     * order, stopping at the first that raises; `n0` to `n3` are the level
     * names, whose lengths differ.
     */
    method AddCustomLevels(n0: string, n1: string, n2: string, n3: string) returns (r: Result<()>)
      requires Valid()
      requires |n0| == 8 && |n1| == 9 && |n2| == 12 && |n3| == 10
      modifies this`moduleNames, this`loggerMethods, this`levels, this`levelNames
      ensures Valid()
      ensures r.Ok? ==> old(moduleNames) <= moduleNames
                        && n0 in levels && n1 in levels && n2 in levels && n3 in levels
                        && levels[n0] == 21 && levels[n1] == 25 && levels[n2] == 35 && levels[n3] == 45
      ensures r.Err? ==> r.error.AttributeError?
      ensures old(n0 in moduleNames) ==> r.Err? && unchanged(this)
      ensures old(FreeFor(n0) && FreeFor(n1) && FreeFor(n2) && FreeFor(n3)) ==> r.Ok?
    {
      ghost var m0, m1, m2, m3 := MethodName(n0, None), MethodName(n1, None), MethodName(n2, None), MethodName(n3, None);
      ghost var names0, methods0 := moduleNames, loggerMethods;
      ghost var free := CanAdd(n0, m0) && CanAdd(n1, m1) && CanAdd(n2, m2) && CanAdd(n3, m3);
      r := AddLoggingLevel(n0, 21, None);
      if r.Err? {
        return;
      }
      ghost var names1, methods1 := moduleNames, loggerMethods;
      if free {
        StillUnused(names0, methods0, n0, m0, n1, m1);
        StillUnused(names0, methods0, n0, m0, n2, m2);
        StillUnused(names0, methods0, n0, m0, n3, m3);
      }
      r := AddLoggingLevel(n1, 25, None);
      if r.Err? {
        return;
      }
      ghost var names2, methods2 := moduleNames, loggerMethods;
      if free {
        StillUnused(names1, methods1, n1, m1, n2, m2);
        StillUnused(names1, methods1, n1, m1, n3, m3);
      }
      r := AddLoggingLevel(n2, 35, None);
      if r.Err? {
        return;
      }
      if free {
        StillUnused(names2, methods2, n2, m2, n3, m3);
      }
      r := AddLoggingLevel(n3, 45, None);
    }

    /**
     * `_initialize_logger_settings`: refuses a missing directory, adds the four
     * custom levels and clears `first_logging_call`. Creating the directories
     * and loading the handler configuration are file-system work outside this
     * model.
     */
    method InitializeLoggerSettings(logDir: Option<string>) returns (r: Result<()>)
      requires Valid()
      modifies this`moduleNames, this`loggerMethods, this`levels, this`levelNames, this`firstLoggingCall
      ensures Valid()
      ensures logDir.None? ==> r == Err(ValueError(LogDirMessage)) && unchanged(this)
      ensures r.Ok? ==> !firstLoggingCall && HasCustomLevels(levels) && old(moduleNames) <= moduleNames && logDir.Some?
      ensures r.Err? ==> firstLoggingCall == old(firstLoggingCall)
      ensures logDir.Some? && old(CustomLevels[0].0 in moduleNames) ==> r.Err? && r.error.AttributeError? && unchanged(this)
      ensures logDir.Some? && old(CustomLevelsFree()) ==> r.Ok?
    {
      if logDir.None? {
        return Err(ValueError(LogDirMessage));
      }
      r := AddCustomLevels(CustomLevels[0].0, CustomLevels[1].0, CustomLevels[2].0, CustomLevels[3].0);
      if r.Ok? {
        firstLoggingCall := false;
      }
    }

    /**
     * `get_logger`: initialises on the first call only, then hands back the
     * caller's logger (here its name).
     */
    method GetLogger(caller: string, logDir: Option<string>) returns (r: Result<string>)
      requires Valid()
      modifies this`moduleNames, this`loggerMethods, this`levels, this`levelNames, this`firstLoggingCall
      ensures Valid()
      ensures !old(firstLoggingCall) ==> r == Ok(caller) && unchanged(this)
      ensures r.Ok? ==> r.value == caller && !firstLoggingCall
      ensures old(firstLoggingCall) && logDir.None? ==> r == Err(ValueError(LogDirMessage))
    {
      if firstLoggingCall {
        var init := InitializeLoggerSettings(logDir);
        if init.Err? {
          return Err(init.error);
        }
      }
      r := Ok(caller);
    }
  }
}
