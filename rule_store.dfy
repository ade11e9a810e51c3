/**
 * The page's state: the rule list, the copy kept in local storage under the
 * key "rules", and the index of the rule the edit dialog is open on. The
 * storage is a field here; reading it is the constructor's argument.
 *
 * The Edit and Delete buttons are numbered by position in the FILTERED list
 * while these operations index the full list, so with a filter active they
 * can reach a different rule. The operations below take indices into the
 * full list, as the handlers themselves do.
 */
module RuleStore {
  import opened Wrappers
  import opened JsStrings
  import opened Rules

  class Store {
    var rules: seq<Rule>
    /** The stored list; `None` while nothing has been stored. */
    var persisted: Option<seq<Rule>>
    /** `None` is the script's initial `null`. */
    var editIndex: Option<nat>

    /** The stored copy is the list itself. */
    predicate Synced()
      reads this
    {
      persisted == Some(rules)
    }

    /** The index the edit dialog will write to names a rule of the list. */
    predicate EditTargetValid()
      reads this
    {
      editIndex.Some? && editIndex.value < |rules|
    }

    /**
     * Page load: a stored list is used as it is, even an empty one; with
     * nothing stored the four default rules are used and nothing is written.
     */
    constructor Load(stored: Option<seq<Rule>>)
      ensures stored.Some? ==> rules == stored.value && Synced()
      ensures stored.None? ==> rules == Defaults() && persisted == None
      ensures editIndex == None
    {
      rules := if stored.Some? then stored.value else Defaults();
      persisted := stored;
      editIndex := None;
    }

    /** `saveToLS`: overwrite the stored copy with the whole list. */
    method Save()
      modifies this`persisted
      ensures Synced()
    {
      persisted := Some(rules);
    }

    /** The add form: append the trimmed record and save, or do nothing if a field is blank. */
    method Add(rawTitle: string, rawDesc: string) returns (added: bool)
      modifies this`rules, this`persisted
      ensures added <==> !AllWhiteSpace(rawTitle) && !AllWhiteSpace(rawDesc)
      ensures added ==> && |rules| == |old(rules)| + 1
                        && rules[..|old(rules)|] == old(rules)
                        && rules[|rules| - 1] == Rule(Trim(rawTitle), Trim(rawDesc))
                        && Synced()
      ensures !added ==> rules == old(rules) && persisted == old(persisted)
    {
      var r := Validated(rawTitle, rawDesc);
      if r.None? {
        return false;
      }
      rules := rules + [r.value];
      Save();
      added := true;
    }

    /** `deleteRule(i)`: splice one rule out and save, even when nothing was removed. */
    method Delete(i: int)
      modifies this`rules, this`persisted
      ensures rules == SpliceOne(old(rules), i)
      ensures 0 <= i < |old(rules)| ==> && |rules| == |old(rules)| - 1
                                         && rules == old(rules)[..i] + old(rules)[i + 1..]
      ensures i >= |old(rules)| ==> rules == old(rules)
      ensures Synced()
    {
      rules := SpliceOne(rules, i);
      assert 0 <= i < |old(rules)| ==> rules == old(rules)[..i] + old(rules)[i + 1..];
      Save();
    }

    /**
     * `openEdit(i)`: remember the index and hand back the rule's fields for the
     * dialog. Reading `rules[i].title` throws for an index outside the list,
     * so callers pass one inside it.
     */
    method OpenEdit(i: int) returns (title: string, desc: string)
      requires 0 <= i < |rules|
      modifies this`editIndex
      ensures editIndex == Some(i)
      ensures title == rules[i].title && desc == rules[i].desc
    {
      editIndex := Some(i);
      title, desc := rules[i].title, rules[i].desc;
    }

    /**
     * The edit dialog's Save: overwrite the rule at `editIndex` with the trimmed
     * record and save, or do nothing if a field is blank. The index is only
     * used once the fields pass, so only then must it name a rule.
     */
    method SaveEdit(rawTitle: string, rawDesc: string) returns (saved: bool)
      requires !AllWhiteSpace(rawTitle) && !AllWhiteSpace(rawDesc) ==> EditTargetValid()
      modifies this`rules, this`persisted
      ensures saved <==> !AllWhiteSpace(rawTitle) && !AllWhiteSpace(rawDesc)
      ensures saved ==> && |rules| == |old(rules)|
                        && rules[editIndex.value] == Rule(Trim(rawTitle), Trim(rawDesc))
                        && (forall j :: 0 <= j < |rules| && j != editIndex.value ==> rules[j] == old(rules)[j])
                        && Synced()
      ensures !saved ==> rules == old(rules) && persisted == old(persisted)
    {
      var r := Validated(rawTitle, rawDesc);
      if r.None? {
        return false;
      }
      rules := rules[editIndex.value := r.value];
      Save();
      saved := true;
    }
  }

  /** Deleting a rule and reloading the page gives the list without that rule. */
  method DeleteThenReload(store: Store, i: int) returns (reloaded: Store)
    requires 0 <= i < |store.rules|
    modifies store
    ensures reloaded.rules == old(store.rules)[..i] + old(store.rules)[i + 1..]
  {
    store.Delete(i);
    reloaded := new Store.Load(store.persisted);
  }
}
