/**
 * The "SymBols Update" and "SymBols Reset" buttons of the symbol inspector:
 * they read the scripting define symbols of the selected build target group,
 * split them at `;` (dropping empty entries), add or remove the configured
 * symbols, and write the `;`-joined list back only when it changed.
 */
module ProjectSetting {
  import opened Strings
  import opened Lists

  /** The scripting-define-symbol setting of the selected build target group. */
  class PlayerSettings {
    var scriptingDefineSymbols: string

    constructor (symbols: string)
      ensures scriptingDefineSymbols == symbols
    {
      scriptingDefineSymbols := symbols;
    }
  }

  /** The symbol list held in a stored setting. */
  function SymbolList(stored: string): (symbols: seq<string>)
    ensures forall i :: 0 <= i < |symbols| ==> IsToken(symbols[i], ';')
  {
    SplitNonEmpty(stored, ';')
  }

  /** The `foreach` of the update: append each requested symbol the list does
      not contain yet, remembering whether anything was appended. */
  method AddMissing(current: seq<string>, newSymbols: seq<string>) returns (symbols: seq<string>, changed: bool)
    ensures symbols == current + Fresh(current, newSymbols)
    ensures changed <==> exists s :: s in newSymbols && s !in current
  {
    symbols, changed := current, false;
    ghost var added: seq<string> := [];
    for k := 0 to |newSymbols|
      invariant added == Fresh(current, newSymbols[..k])
      invariant symbols == current + added
      invariant changed <==> added != []
    {
      var symbol := newSymbols[k];
      FreshStep(current, newSymbols, k);
      if symbol !in symbols {
        symbols := symbols + [symbol];
        added := added + [symbol];
        changed := true;
      }
    }
    assert newSymbols[..|newSymbols|] == newSymbols;
    FreshNonEmpty(current, newSymbols);
  }

  /** The `foreach` of the reset: `List.Remove` each requested symbol, which
      takes out its first occurrence, remembering whether any call removed one. */
  method RemoveListed(current: seq<string>, symbolsToRemove: seq<string>) returns (symbols: seq<string>, changed: bool)
    ensures symbols == RemoveEach(current, symbolsToRemove)
    ensures multiset(symbols) == multiset(current) - multiset(symbolsToRemove)
    ensures IsSubsequence(symbols, current)
    ensures changed <==> exists s :: s in symbolsToRemove && s in current
  {
    symbols, changed := current, false;
    for k := 0 to |symbolsToRemove|
      invariant symbols == RemoveEach(current, symbolsToRemove[..k])
      invariant changed <==> symbols != current
      // the list only ever shrinks, so once changed it stays changed
      invariant |symbols| <= |current|
      invariant symbols != current ==> |symbols| < |current|
    {
      var symbol := symbolsToRemove[k];
      assert symbolsToRemove[..k + 1][..k] == symbolsToRemove[..k];
      var removed := symbol in symbols;
      if removed {
        changed := true;
      }
      symbols := RemoveFirst(symbols, symbol);
    }
    assert symbolsToRemove[..|symbolsToRemove|] == symbolsToRemove;
    RemoveEachChanges(current, symbolsToRemove);
    RemoveEachMultiset(current, symbolsToRemove);
    RemoveEachKeepsOrder(current, symbolsToRemove);
  }

  /** `UpdateScriptingDefineSymbols`: appends the missing symbols and writes the
      joined list back only if at least one was appended. */
  method UpdateScriptingDefineSymbols(settings: PlayerSettings, newSymbols: seq<string>)
    modifies settings
    ensures var current := SymbolList(old(settings.scriptingDefineSymbols));
      if exists s :: s in newSymbols && s !in current
      then settings.scriptingDefineSymbols == Join(";", current + Fresh(current, newSymbols))
      else settings.scriptingDefineSymbols == old(settings.scriptingDefineSymbols)
  {
    var currentSymbols := settings.scriptingDefineSymbols;
    var symbolsList := SymbolList(currentSymbols);
    var updated, changed := AddMissing(symbolsList, newSymbols);
    if changed {
      settings.scriptingDefineSymbols := Join(";", updated);
    }
  }

  /** `ResetScriptingDefineSymbols`: removes the first occurrence of each listed
      symbol and writes the joined list back only if something was removed. */
  method ResetScriptingDefineSymbols(settings: PlayerSettings, symbolsToRemove: seq<string>)
    modifies settings
    ensures var current := SymbolList(old(settings.scriptingDefineSymbols));
      if exists s :: s in symbolsToRemove && s in current
      then settings.scriptingDefineSymbols == Join(";", RemoveEach(current, symbolsToRemove))
      else settings.scriptingDefineSymbols == old(settings.scriptingDefineSymbols)
  {
    var currentSymbols := settings.scriptingDefineSymbols;
    var symbolsList := SymbolList(currentSymbols);
    var updated, changed := RemoveListed(symbolsList, symbolsToRemove);
    if changed {
      settings.scriptingDefineSymbols := Join(";", updated);
    }
  }

  /** The list an update writes, when read back, is the list it built: stored
      symbols in their order, then each requested symbol not yet present, in
      request order and never twice. */
  lemma UpdateWritesMergedList(stored: string, newSymbols: seq<string>)
    requires forall i :: 0 <= i < |newSymbols| ==> IsToken(newSymbols[i], ';')
    ensures var current := SymbolList(stored);
      var merged := current + Fresh(current, newSymbols);
      && SymbolList(Join(";", merged)) == merged
      && merged[..|current|] == current
      && NoDup(merged[|current|..])
      && (NoDup(current) ==> NoDup(merged))
      && forall s :: s in merged <==> s in current || s in newSymbols
  {
    var current := SymbolList(stored);
    var added := Fresh(current, newSymbols);
    var merged := current + added;
    assert merged[..|current|] == current;
    assert NoDup(merged[|current|..]) by {
      FreshNoDup(current, newSymbols);
      assert merged[|current|..] == added;
    }
    if NoDup(current) {
      AppendFreshNoDup(current, newSymbols);
    }
    assert forall s :: s in merged <==> s in current || s in newSymbols by {
      forall s ensures s in merged <==> s in current || s in newSymbols {
        FreshMember(current, newSymbols, s);
      }
    }
    assert SymbolList(Join(";", merged)) == merged by {
      forall i | 0 <= i < |merged| ensures IsToken(merged[i], ';') {
        if i >= |current| {
          assert merged[i] == added[i - |current|];
          FreshMember(current, newSymbols, merged[i]);
        }
      }
      SplitNonEmptyJoin(merged, ';');
    }
  }

  /** Pressing "SymBols Update" a second time with the same symbols writes
      nothing, provided every requested symbol is non-empty and free of `;`. */
  lemma SecondUpdateIsNoOp(stored: string, newSymbols: seq<string>)
    requires forall i :: 0 <= i < |newSymbols| ==> IsToken(newSymbols[i], ';')
    ensures var current := SymbolList(stored);
      var written := Join(";", current + Fresh(current, newSymbols));
      forall s :: s in newSymbols ==> s in SymbolList(written)
  {
    UpdateWritesMergedList(stored, newSymbols);
  }

  /** An empty requested symbol is appended again by every update: it is never
      found in the stored list, whose empty entries are dropped on reading. */
  lemma EmptySymbolIsAlwaysAppended(stored: string, newSymbols: seq<string>)
    requires "" in newSymbols
    ensures exists s :: s in newSymbols && s !in SymbolList(stored)
  {
    assert "" !in SymbolList(stored);
  }

  /** A requested symbol containing `;` is appended again by every update: it
      is never found in the stored list, which is split at `;` on reading. */
  lemma SeparatorSymbolIsAlwaysAppended(stored: string, newSymbols: seq<string>, i: nat)
    requires i < |newSymbols| && ';' in newSymbols[i]
    ensures newSymbols[i] !in SymbolList(stored)
    ensures exists s :: s in newSymbols && s !in SymbolList(stored)
  {
  }

  /** The list a reset writes, when read back, is the stored list with the
      removed symbols taken out and everything else in its old order. */
  lemma ResetWritesRemainingList(stored: string, symbolsToRemove: seq<string>)
    ensures var current := SymbolList(stored);
      var remaining := RemoveEach(current, symbolsToRemove);
      && SymbolList(Join(";", remaining)) == remaining
      && IsSubsequence(remaining, current)
      && multiset(remaining) == multiset(current) - multiset(symbolsToRemove)
  {
    var current := SymbolList(stored);
    var remaining := RemoveEach(current, symbolsToRemove);
    RemoveEachMultiset(current, symbolsToRemove);
    RemoveEachKeepsOrder(current, symbolsToRemove);
    forall i | 0 <= i < |remaining| ensures IsToken(remaining[i], ';') {
      assert remaining[i] in multiset(remaining);
      assert remaining[i] in current;
    }
    SplitNonEmptyJoin(remaining, ';');
  }
}
