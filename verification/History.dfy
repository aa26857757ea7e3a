/** The prompt history of a tab. */
module PromptHistory {
  import opened Seqs
  import opened Text

  const DEFAULT_MAX := 200

  datatype Hist = Hist(entries: seq<string>, max: nat) {

    predicate Wf() {
      max > 0 && |entries| <= max
    }

    predicate Accepts(entry: string) {
      !Blank(entry) && (entries == [] || entries[|entries|-1] != entry)
    }

    function Append(entry: string): Hist {
      if Accepts(entry) then this.(entries := Last(entries + [entry], max)) else this
    }
  }

  function New(max: int): Hist {
    Hist([], if max <= 0 then DEFAULT_MAX else max)
  }

  function Restore(entries: seq<string>): Hist {
    Hist(Last(entries, DEFAULT_MAX), DEFAULT_MAX)
  }

  function AppendAll(h: Hist, entries: seq<string>): Hist {
    if entries == [] then h else AppendAll(h, entries[..|entries|-1]).Append(entries[|entries|-1])
  }

  /** What was typed after what was saved, without blank entries and immediate repeats. */
  function Typed(saved: seq<string>, entries: seq<string>): seq<string> {
    if entries == [] then saved else Type(Typed(saved, entries[..|entries|-1]), entries[|entries|-1])
  }

  function Type(typed: seq<string>, entry: string): seq<string> {
    if Blank(entry) || (typed != [] && typed[|typed|-1] == entry) then typed else typed + [entry]
  }

  predicate NoRepeats(typed: seq<string>) {
    && (forall i :: 0 <= i < |typed| ==> !Blank(typed[i]))
    && (forall i :: 0 < i < |typed| ==> typed[i] != typed[i - 1])
  }

  /** What was typed has no blank entry and no entry twice in a row. */
  lemma {:induction false} TypedHasNoRepeats(saved: seq<string>, entries: seq<string>)
    requires NoRepeats(saved)
    ensures NoRepeats(Typed(saved, entries)) && saved <= Typed(saved, entries)
  {
    if entries != [] {
      TypedHasNoRepeats(saved, entries[..|entries|-1]);
      TypeKeepsApart(Typed(saved, entries[..|entries|-1]), entries[|entries|-1]);
    }
  }

  lemma TypeKeepsApart(typed: seq<string>, entry: string)
    requires NoRepeats(typed)
    ensures NoRepeats(Type(typed, entry)) && typed <= Type(typed, entry)
  {}

  /** Nothing else is left out. */
  lemma {:induction false} TypedKeepsOthers(saved: seq<string>, entries: seq<string>)
    requires NoRepeats(saved + entries)
    ensures Typed(saved, entries) == saved + entries
  {
    if entries == [] {
      ConcatEmpty(saved);
    } else {
      var front, last := entries[..|entries|-1], entries[|entries|-1];
      var all := saved + entries;
      assert saved + front == all[..|all|-1] && all[|all|-1] == last;
      TypedKeepsOthers(saved, front);
    }
  }

  lemma TypedDrops(saved: seq<string>, entries: seq<string>, entry: string)
    requires Blank(entry) || (Typed(saved, entries) != [] && Typed(saved, entries)[|Typed(saved, entries)|-1] == entry)
    ensures Typed(saved, entries + [entry]) == Typed(saved, entries)
  {
    assert (entries + [entry])[..|entries|] == entries;
  }

  lemma AppendFollowsTyped(h: Hist, typed: seq<string>, entry: string)
    requires h.max > 0 && h.entries == Last(typed, h.max)
    ensures h.Append(entry).Wf() && h.Append(entry).entries == Last(Type(typed, entry), h.max)
  {
    LastKeepsEnd(typed, h.max);
    LastKeepsEnd(typed + [entry], h.max);
    LastOfAppend(typed, [entry], h.max);
  }

  lemma {:induction false} StaysLastTyped(h: Hist, saved: seq<string>, entries: seq<string>)
    requires h.max > 0 && h.entries == Last(saved, h.max)
    ensures var h' := AppendAll(h, entries);
            h'.Wf() && h'.max == h.max && h'.entries == Last(Typed(saved, entries), h.max)
  {
    if entries != [] {
      var front, last := entries[..|entries|-1], entries[|entries|-1];
      StaysLastTyped(h, saved, front);
      AppendFollowsTyped(AppendAll(h, front), Typed(saved, front), last);
    }
  }

  /**
    New or restored, the history is the last of the entries saved and typed, although repeats are judged
    against the cut list only.
   */
  lemma HoldsLastTyped(max: int, saved: seq<string>, entries: seq<string>)
    ensures var h := AppendAll(New(max), entries);
            h.Wf() && h.max == New(max).max && h.entries == Last(Typed([], entries), h.max)
    ensures var h := AppendAll(Restore(saved), entries);
            h.Wf() && h.max == DEFAULT_MAX && h.entries == Last(Typed(saved, entries), h.max)
  {
    StaysLastTyped(New(max), [], entries);
    StaysLastTyped(Restore(saved), saved, entries);
  }

  class HistoryBuffer {
    var entries: seq<string>
    var max: nat

    ghost function Value(): Hist
      reads this
    {
      Hist(entries, max)
    }

    constructor (max: int)
      ensures Value() == New(max)
    {
      entries := [];
      this.max := if max <= 0 then DEFAULT_MAX else max;
    }

    constructor FromPersisted(saved: seq<string>)
      ensures Value() == Restore(saved)
    {
      var kept := saved;
      if |kept| > DEFAULT_MAX {
        kept := kept[|kept| - DEFAULT_MAX..];
      }
      entries, max := kept, DEFAULT_MAX;
    }

    method Append(entry: string) returns (changed: bool)
      modifies this`entries
      ensures Value() == old(Value()).Append(entry) && changed == old(Value()).Accepts(entry)
    {
      if Blank(entry) { return false; }
      if |entries| > 0 && entries[|entries|-1] == entry { return false; }
      entries := entries + [entry];
      if |entries| > max {
        entries := entries[|entries| - max..];
      }
      return true;
    }
  }
}
