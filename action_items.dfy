/** Extraction of action items from minutes of meeting (`extract_relevant_points`).
    An item looks like

        1. **Issue:** Fix the login page
           - **Assigned to:** Alice

    and is found by `findall` with the pattern ACTION_ITEM, which keeps the
    text of the issue (group 1) and the assignee's name (group 2). */
module ActionItems {
  import opened Results
  import opened Text
  import opened Regex

  /** The item pattern, one atom per regular-expression element, in order:
      \d+ \. \s+ \*\*Issue:\*\* \s+ (.*?) \s* \n \s* - \s+ \*\*Assigned to:\*\* \s+ (\w+) */
  const ACTION_ITEM: Pattern := [
    Greedy(Digit, 1),
    Lit("."),
    Greedy(Space, 1),
    Lit("**Issue:**"),
    Greedy(Space, 1),
    Lazy(NotNewline, 0),
    Greedy(Space, 0),
    Lit("\n"),
    Greedy(Space, 0),
    Lit("-"),
    Greedy(Space, 1),
    Lit("**Assigned to:**"),
    Greedy(Space, 1),
    Greedy(Word, 1)
  ]

  /** The atoms that form group 1 (the description) and group 2 (the assignee). */
  const DESCRIPTION: nat := 5
  const ASSIGNEE: nat := 13

  /** One item: group 1 and group 2 of a match. */
  datatype ActionItem = ActionItem(description: string, assignee: string)

  function ItemOf(t: string, m: Match): ActionItem
    requires Found(t, ACTION_ITEM, m)
  {
    ActionItem(t[m.ends[DESCRIPTION - 1]..m.ends[DESCRIPTION]], t[m.ends[ASSIGNEE - 1]..m.ends[ASSIGNEE]])
  }

  /** What every extracted item looks like: the description is one line with
      no whitespace at either end (possibly empty), the assignee a non-empty
      run of word characters. */
  predicate WellFormed(item: ActionItem) {
    && '\n' !in item.description
    && (item.description != [] ==> !IsSpace(item.description[0]) && !IsSpace(item.description[|item.description| - 1]))
    && item.assignee != []
    && forall i :: 0 <= i < |item.assignee| ==> IsWordChar(item.assignee[i])
  }

  lemma ItemsWellFormed(mom: string, ms: seq<Match>)
    requires forall k :: 0 <= k < |ms| ==> Found(mom, ACTION_ITEM, ms[k])
    ensures forall k :: 0 <= k < |ms| ==> WellFormed(ItemOf(mom, ms[k]))
  {
    forall k | 0 <= k < |ms| ensures WellFormed(ItemOf(mom, ms[k])) {
      AssigneeIsWord(mom, ms[k]);
      DescriptionIsTrimmed(mom, ms[k]);
    }
  }

  /** `extract_relevant_points`: the (description, assignee) pairs of every
      item findall reports, in document order. */
  function ExtractRelevantPoints(mom: string): (items: seq<ActionItem>)
    ensures |items| == |FindAll(mom, ACTION_ITEM, 0)|
    ensures forall k :: 0 <= k < |items| ==> WellFormed(items[k])
  {
    var ms := FindAll(mom, ACTION_ITEM, 0);
    ItemsWellFormed(mom, ms);
    seq(|ms|, k requires 0 <= k < |ms| => ItemOf(mom, ms[k]))
  }

  /** No items are extracted exactly when no fragment of the text fits the pattern. */
  lemma NothingExtracted(mom: string)
    ensures ExtractRelevantPoints(mom) == [] ==>
      forall pos: nat, ends: seq<nat> :: pos <= |mom| ==> !IsMatch(mom, ACTION_ITEM, pos, ends)
    ensures (forall pos: nat, ends: seq<nat> :: pos <= |mom| ==> !IsMatch(mom, ACTION_ITEM, pos, ends)) ==>
      ExtractRelevantPoints(mom) == []
  {
    FindAllEmpty(mom, ACTION_ITEM);
  }

  /** The atoms around the two groups, as ACTION_ITEM has them. The
      properties of the groups follow from these alone. */
  predicate GroupAtoms(pat: Pattern) {
    && |pat| == |ACTION_ITEM|
    && pat[DESCRIPTION - 1] == Greedy(Space, 1)
    && pat[DESCRIPTION] == Lazy(NotNewline, 0)
    && pat[DESCRIPTION + 1] == Greedy(Space, 0)
    && pat[ASSIGNEE] == Greedy(Word, 1)
  }

  lemma ActionItemGroups()
    ensures GroupAtoms(ACTION_ITEM) && ConsumesInput(ACTION_ITEM)
  {
  }

  lemma AssigneeIsWordIn(t: string, pat: Pattern, pos: nat, ends: seq<nat>)
    requires GroupAtoms(pat) && IsFirstMatch(t, pat, pos, ends) && Ordered(pos, ends, |t|)
    ensures var name := t[ends[ASSIGNEE - 1]..ends[ASSIGNEE]];
      name != [] && (forall i :: 0 <= i < |name| ==> IsWordChar(name[i]))
    ensures ends[ASSIGNEE] == |t| || !IsWordChar(t[ends[ASSIGNEE]])
  {
    AtomOf(t, pat, pos, ends, ASSIGNEE);
    var name := t[ends[ASSIGNEE - 1]..ends[ASSIGNEE]];
    forall i | 0 <= i < |name| ensures IsWordChar(name[i]) {
      assert name[i] == t[ends[ASSIGNEE - 1] + i];
      assert InClass(t[ends[ASSIGNEE - 1] + i], Word);
    }
    if ends[ASSIGNEE] < |t| && IsWordChar(t[ends[ASSIGNEE]]) {
      GreedyTakesAll(t, pat, pos, ends, ASSIGNEE);
    }
  }

  lemma DescriptionIsTrimmedIn(t: string, pat: Pattern, pos: nat, ends: seq<nat>)
    requires GroupAtoms(pat) && IsFirstMatch(t, pat, pos, ends) && Ordered(pos, ends, |t|)
    ensures var d := t[ends[DESCRIPTION - 1]..ends[DESCRIPTION]];
      '\n' !in d && (d != [] ==> !IsSpace(d[0]) && !IsSpace(d[|d| - 1]))
  {
    var lo, hi := ends[DESCRIPTION - 1], ends[DESCRIPTION];
    AtomOf(t, pat, pos, ends, DESCRIPTION);
    var d := t[lo..hi];
    forall i | 0 <= i < |d| ensures d[i] != '\n' {
      assert d[i] == t[lo + i];
      assert InClass(t[lo + i], NotNewline);
    }
    if d != [] && IsSpace(d[0]) {
      assert t[lo] == d[0];
      GreedyTakesAll(t, pat, pos, ends, DESCRIPTION - 1);
    }
    if d != [] && IsSpace(d[|d| - 1]) {
      assert t[hi - 1] == d[|d| - 1];
      AtomOf(t, pat, pos, ends, DESCRIPTION + 1);
      LazyTakesLeast(t, pat, pos, ends, DESCRIPTION);
    }
  }

  /** Group 2 is a non-empty run of word characters, and a maximal one: the
      character after it, if any, is not a word character. */
  lemma AssigneeIsWord(t: string, m: Match)
    requires Found(t, ACTION_ITEM, m)
    ensures var name := ItemOf(t, m).assignee;
      name != [] && (forall i :: 0 <= i < |name| ==> IsWordChar(name[i]))
    ensures End(m) == |t| || !IsWordChar(t[End(m)])
  {
    FoundIsFirst(t, ACTION_ITEM, m);
    ActionItemGroups();
    var ends := m.ends;
    assert End(m) == ends[ASSIGNEE];
    AssigneeIsWordIn(t, ACTION_ITEM, m.start, ends);
  }

  /** Group 1 stays on one line and has no whitespace at either end: the
      greedy \s+ before it takes all leading whitespace, and the lazy group
      leaves trailing whitespace to the \s* after it. */
  lemma DescriptionIsTrimmed(t: string, m: Match)
    requires Found(t, ACTION_ITEM, m)
    ensures var d := ItemOf(t, m).description;
      '\n' !in d && (d != [] ==> !IsSpace(d[0]) && !IsSpace(d[|d| - 1]))
  {
    FoundIsFirst(t, ACTION_ITEM, m);
    ActionItemGroups();
    DescriptionIsTrimmedIn(t, ACTION_ITEM, m.start, m.ends);
  }
}
