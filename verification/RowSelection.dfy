/** Tiered row selection: capacitated bipartite matching by augmenting paths, run online over the
    rows of the pool, dropping for good every row that cannot be placed. */
module RowSelection {
  import opened Basics
  import opened Counting

  /** One place for a row in a length group, or the row that holds it. */
  type Slots = seq<seq<Option<int>>>

  /** Everything held in the slots, each entry as often as it occurs. */
  ghost function Contents(slots: Slots): multiset<Option<int>> {
    if slots == [] then multiset{} else Contents(slots[..|slots| - 1]) + multiset(slots[|slots| - 1])
  }

  predicate IsSlot(slots: Slots, g: int, i: int) {
    0 <= g < |slots| && 0 <= i < |slots[g]|
  }

  lemma UpdateGroup(group: seq<Option<int>>, i: int, x: Option<int>)
    requires 0 <= i < |group|
    ensures multiset(group[i := x]) == multiset(group) - multiset{group[i]} + multiset{x}
  {
  }

  /** Replacing an entry of one part replaces it in the whole. */
  lemma ReplaceInSum(a: multiset<Option<int>>, b: multiset<Option<int>>, y: Option<int>, x: Option<int>)
    ensures y in b ==> a + (b - multiset{y} + multiset{x}) == (a + b) - multiset{y} + multiset{x}
    ensures y in a ==> (a - multiset{y} + multiset{x}) + b == (a + b) - multiset{y} + multiset{x}
  {
  }

  lemma ContentsLast(slots: Slots)
    requires slots != []
    ensures Contents(slots) == Contents(slots[..|slots| - 1]) + multiset(slots[|slots| - 1])
  {
  }

  lemma {:induction false} UpdateContents(slots: Slots, g: int, i: int, x: Option<int>)
    requires IsSlot(slots, g, i)
    ensures slots[g][i] in Contents(slots)
    ensures Contents(slots[g := slots[g][i := x]]) == Contents(slots) - multiset{slots[g][i]} + multiset{x}
  {
    hide Contents;
    var last := |slots| - 1;
    var slots' := slots[g := slots[g][i := x]];
    ContentsLast(slots);
    ContentsLast(slots');
    assert slots[g][i] in multiset(slots[g]);
    ReplaceInSum(Contents(slots[..last]), multiset(slots[last]), slots[g][i], x);
    if g == last {
      assert slots'[..last] == slots[..last];
      UpdateGroup(slots[g], i, x);
    } else {
      UpdateContents(slots[..last], g, i, x);
      assert slots'[..last] == slots[..last][g := slots[g][i := x]];
    }
  }

  lemma {:induction false} HeldSomewhere(slots: Slots, x: Option<int>)
    requires x in Contents(slots)
    ensures exists g, i :: IsSlot(slots, g, i) && slots[g][i] == x
  {
    var last := |slots| - 1;
    if x in slots[last] {
      var i :| 0 <= i < |slots[last]| && slots[last][i] == x;
      assert IsSlot(slots, last, i);
    } else {
      HeldSomewhere(slots[..last], x);
      var g, i :| IsSlot(slots[..last], g, i) && slots[..last][g][i] == x;
      assert IsSlot(slots, g, i);
    }
  }

  /** A row counted once sits in one slot. */
  lemma HeldOnce(slots: Slots, g: int, i: int, h: int, j: int)
    requires IsSlot(slots, g, i) && IsSlot(slots, h, j) && slots[g][i] == slots[h][j]
    requires slots[g][i].Some? && Contents(slots)[slots[g][i]] <= 1
    ensures g == h && i == j
  {
    var slots' := slots[g := slots[g][i := None]];
    UpdateContents(slots, g, i, None);
    if g != h || i != j {
      assert slots'[h][j] == slots[h][j];
      UpdateContents(slots', h, j, None);
    }
  }

  // ---------------------------------------------------------------------------
  // What a full assignment is, and when none exists

  /** Which groups a row may fill. */
  type Eligible = int -> set<int>

  /** `assignment` fills every slot of every group with distinct eligible rows of the pool. */
  ghost predicate Fills(assignment: seq<seq<int>>, counts: seq<nat>, rows: set<int>, eligible: Eligible) {
    && |assignment| == |counts|
    && (forall g :: 0 <= g < |counts| ==> |assignment[g]| == counts[g])
    && (forall g, i :: 0 <= g < |counts| && 0 <= i < counts[g]
          ==> assignment[g][i] in rows && g in eligible(assignment[g][i]))
    && (forall g, i, h, j :: (0 <= g < |counts| && 0 <= i < counts[g] && 0 <= h < |counts| && 0 <= j < counts[h]
                              && assignment[g][i] == assignment[h][j]) ==> g == h && i == j)
  }

  /** A set of groups that is full of rows which can go nowhere else. */
  ghost predicate Sealed(slots: Slots, groups: set<int>, eligible: Eligible) {
    forall g, i :: g in groups && IsSlot(slots, g, i) ==> slots[g][i].Some? && eligible(slots[g][i].value) <= groups
  }

  ghost function Outside(slots: Slots, groups: set<int>): set<(int, int)> {
    set g, i | 0 <= g < |slots| && 0 <= i < |slots[g]| && g !in groups :: (g, i)
  }

  ghost predicate HasShape(slots: Slots, counts: seq<nat>) {
    |slots| == |counts| && forall g :: 0 <= g < |counts| ==> |slots[g]| == counts[g]
  }

  /** While a slot is free and every row that is not placed is confined to a sealed set of groups,
      no assignment fills all slots: the slots outside the sealed groups outnumber the rows that
      could fill them. */
  lemma CoverageImpossible(slots: Slots, counts: seq<nat>, rows: set<int>, eligible: Eligible, sealed: set<int>,
                           g0: int, i0: int, assignment: seq<seq<int>>)
    requires HasShape(slots, counts) && Sealed(slots, sealed, eligible)
    requires forall r :: r in rows ==> eligible(r) <= sealed || Some(r) in Contents(slots)
    requires IsSlot(slots, g0, i0) && slots[g0][i0] == None
    ensures !Fills(assignment, counts, rows, eligible)
  {
    hide Contents, Fills, Sealed;
    if Fills(assignment, counts, rows, eligible) {
      var outside := Outside(slots, sealed);
      var wanted := WantedRows(slots, counts, rows, eligible, sealed, assignment);
      var holders := map s: (int, int) | s in outside - {(g0, i0)} :: slots[s.0][s.1];
      ConfinedFree(slots, sealed, eligible, g0, i0);
      var s := RowWithoutHolder(wanted, holders, outside, (g0, i0));
      var h, j := HolderOutside(slots, sealed, eligible, wanted[s], s.0);
    }
  }

  lemma ConfinedFree(slots: Slots, sealed: set<int>, eligible: Eligible, g: int, i: int)
    requires Sealed(slots, sealed, eligible) && IsSlot(slots, g, i) && slots[g][i] == None
    ensures g !in sealed
  {
  }

  /** The rows an assignment puts outside the sealed groups. */
  lemma WantedRows(slots: Slots, counts: seq<nat>, rows: set<int>, eligible: Eligible, sealed: set<int>,
                   assignment: seq<seq<int>>) returns (wanted: map<(int, int), int>)
    requires HasShape(slots, counts) && Fills(assignment, counts, rows, eligible)
    ensures wanted.Keys == Outside(slots, sealed)
    ensures forall k, l :: k in wanted && l in wanted && wanted[k] == wanted[l] ==> k == l
    ensures forall s :: s in wanted ==> s.0 !in sealed && s.0 in eligible(wanted[s]) && wanted[s] in rows
  {
    wanted := map s: (int, int) | s in Outside(slots, sealed) :: assignment[s.0][s.1];
  }

  /** A placed row that could fill a group outside the sealed ones is held outside them. */
  lemma HolderOutside(slots: Slots, sealed: set<int>, eligible: Eligible, r: int, g: int) returns (h: int, j: int)
    requires Sealed(slots, sealed, eligible) && Some(r) in Contents(slots)
    requires g in eligible(r) && g !in sealed
    ensures IsSlot(slots, h, j) && slots[h][j] == Some(r) && (h, j) in Outside(slots, sealed)
  {
    HeldSomewhere(slots, Some(r));
    h, j :| IsSlot(slots, h, j) && slots[h][j] == Some(r);
  }

  /** With one slot fewer than wanted, some wanted row is held nowhere. */
  lemma RowWithoutHolder(wanted: map<(int, int), int>, holders: map<(int, int), Option<int>>, outside: set<(int, int)>,
                         free: (int, int))
    returns (s: (int, int))
    requires wanted.Keys == outside && holders.Keys == outside - {free} && free in outside
    requires forall k, l :: k in wanted && l in wanted && wanted[k] == wanted[l] ==> k == l
    ensures s in wanted && forall k :: k in outside && k != free ==> holders[k] != Some(wanted[s])
  {
    var rows := map k | k in wanted :: Some(wanted[k]);
    assert rows.Keys == wanted.Keys;
    InjectiveImageSize(rows);
    ImageSize(holders);
    if rows.Values <= holders.Values {
      SubsetSize(rows.Values, holders.Values);
      assert false;
    }
    var x :| x in rows.Values && x !in holders.Values;
    s :| s in rows && rows[s] == x;
  }

  // ---------------------------------------------------------------------------
  // Eligibility

  datatype LengthGroup = LengthGroup(minTokens: nat, maxTokens: nat, count: nat)

  /** A rendered prefix of one row's conversation. */
  datatype Prefix = Prefix(rowIndex: int, endMessageIndex: int, inputTokens: nat)

  /** What fetching and rendering one row gives: a row whose rendering fails anywhere counts as
      having no prefixes, a fetch failure ends the selection. */
  datatype RowView = FetchFailed | RenderFailed | Rendered(prefixes: seq<Prefix>)

  const TARGETS: seq<nat> := [4096, 8192, 16384, 32768]

  /** The four input-length groups and how many prompts each takes. */
  function LengthGroups(prompts: nat): (groups: seq<LengthGroup>)
    ensures |groups| == 4
    ensures groups[0].count + groups[1].count + groups[2].count + groups[3].count == prompts
    ensures forall g, h :: 0 <= g < h < 4 ==>
              groups[g].maxTokens < groups[h].minTokens && groups[h].count <= groups[g].count <= groups[h].count + 1
    ensures groups[0].maxTokens == 4096 && forall g :: 0 <= g < 3 ==> groups[g + 1].maxTokens == 2 * groups[g].maxTokens
    ensures forall g :: 0 <= g < 4 ==>
              10 * (groups[g].minTokens - 1) < 9 * groups[g].maxTokens <= 10 * groups[g].minTokens
  {
    seq(4, i requires 0 <= i < 4 =>
      LengthGroup((TARGETS[i] * 9 + 9) / 10, TARGETS[i], prompts / 4 + if i < prompts % 4 then 1 else 0))
  }

  predicate Fits(prefix: Prefix, group: LengthGroup) {
    group.minTokens <= prefix.inputTokens <= group.maxTokens
  }

  /** The last prefix whose length fits the group. */
  ghost function LastFitting(prefixes: seq<Prefix>, group: LengthGroup): (r: Option<Prefix>)
    ensures r.Some? ==> r.value in prefixes && Fits(r.value, group)
    ensures r.None? ==> forall p :: p in prefixes ==> !Fits(p, group)
  {
    if prefixes == [] then None
    else if Fits(prefixes[|prefixes| - 1], group) then Some(prefixes[|prefixes| - 1])
    else LastFitting(prefixes[..|prefixes| - 1], group)
  }

  type Options = map<int, Prefix>

  /** For each group the row can fill, the prefix that fills it. */
  ghost function Usable(view: RowView, groups: seq<LengthGroup>): Options {
    match view
    case Rendered(prefixes) =>
      map g | 0 <= g < |groups| && LastFitting(prefixes, groups[g]).Some? :: LastFitting(prefixes, groups[g]).value
    case _ => map[]
  }

  ghost function GroupsOf(views: int -> RowView, groups: seq<LengthGroup>): Eligible {
    r => Usable(views(r), groups).Keys
  }

  function Lookup(options: Options, g: int): Option<Prefix> {
    if g in options then Some(options[g]) else None
  }

  lemma GroupsAt(views: int -> RowView, groups: seq<LengthGroup>, r: int)
    ensures GroupsOf(views, groups)(r) == Usable(views(r), groups).Keys
  {
  }

  /** A later prefix that fits a group replaces an earlier one. */
  method EligiblePrefixes(prefixes: seq<Prefix>, groups: seq<LengthGroup>) returns (eligible: Options)
    ensures eligible == Usable(Rendered(prefixes), groups)
  {
    eligible := map[];
    for k := 0 to |prefixes|
      invariant forall g :: g in eligible ==> 0 <= g < |groups|
      invariant forall h :: 0 <= h < |groups| ==> Lookup(eligible, h) == LastFitting(prefixes[..k], groups[h])
    {
      ghost var seen: seq<Prefix>, now := prefixes[..k], prefixes[..k + 1];
      assert now[..k] == seen;
      for g := 0 to |groups|
        invariant forall h :: h in eligible ==> 0 <= h < |groups|
        invariant forall h :: g <= h < |groups| ==> Lookup(eligible, h) == LastFitting(seen, groups[h])
        invariant forall h :: 0 <= h < g ==> Lookup(eligible, h) == LastFitting(now, groups[h])
      {
        if groups[g].minTokens <= prefixes[k].inputTokens <= groups[g].maxTokens {
          eligible := eligible[g := prefixes[k]];
        }
      }
    }
    assert prefixes[..|prefixes|] == prefixes;
    assert forall h :: 0 <= h < |groups| ==> Lookup(eligible, h) == LastFitting(prefixes, groups[h]);
  }

  /** The last of the prefixes whose length is within the group's. */
  ghost predicate LastFit(prefixes: seq<Prefix>, group: LengthGroup, p: Prefix) {
    exists k :: 0 <= k < |prefixes| && prefixes[k] == p && group.minTokens <= p.inputTokens <= group.maxTokens
                && forall j :: k < j < |prefixes| ==> !(group.minTokens <= prefixes[j].inputTokens <= group.maxTokens)
  }

  lemma {:induction false} LastFittingIs(prefixes: seq<Prefix>, group: LengthGroup)
    ensures LastFitting(prefixes, group).Some? <==> exists k :: 0 <= k < |prefixes| && group.minTokens <= prefixes[k].inputTokens <= group.maxTokens
    ensures LastFitting(prefixes, group).Some? ==> LastFit(prefixes, group, LastFitting(prefixes, group).value)
  {
    if prefixes != [] && !Fits(prefixes[|prefixes| - 1], group) {
      var init := prefixes[..|prefixes| - 1];
      LastFittingIs(init, group);
      if LastFitting(init, group).Some? {
        var p := LastFitting(init, group).value;
        var k :| 0 <= k < |init| && init[k] == p && forall j :: k < j < |init| ==> !(group.minTokens <= init[j].inputTokens <= group.maxTokens);
        assert prefixes[k] == p;
        forall j | k < j < |prefixes| ensures !(group.minTokens <= prefixes[j].inputTokens <= group.maxTokens) {
          assert j < |init| ==> init[j] == prefixes[j];
        }
      }
    }
  }

  /** A row can fill a group exactly when some prefix's length is within the group's, and it does so by
      the last such prefix. */
  lemma UsableMeans(view: RowView, groups: seq<LengthGroup>, g: int)
    ensures g in Usable(view, groups) <==>
            && 0 <= g < |groups| && view.Rendered?
            && exists k :: 0 <= k < |view.prefixes| && groups[g].minTokens <= view.prefixes[k].inputTokens <= groups[g].maxTokens
    ensures g in Usable(view, groups) ==> LastFit(view.prefixes, groups[g], Usable(view, groups)[g])
  {
    hide LastFitting, LastFit;
    if 0 <= g < |groups| && view.Rendered? {
      LastFittingIs(view.prefixes, groups[g]);
    }
  }

  // ---------------------------------------------------------------------------
  // Placing rows along augmenting paths

  /** Every row in a slot has its options on record, and the slot's group is among them. */
  ghost predicate Known(slots: Slots, options: map<int, Options>) {
    forall g, i :: IsSlot(slots, g, i) && slots[g][i].Some?
      ==> slots[g][i].value in options && g in options[slots[g][i].value]
  }

  ghost predicate SameShape(slots: Slots, slots': Slots) {
    |slots| == |slots'| && forall g :: 0 <= g < |slots| ==> |slots[g]| == |slots'[g]|
  }

  /** The groups are full of rows whose options all lie in the groups. */
  ghost predicate Closed(slots: Slots, groups: set<int>, options: map<int, Options>) {
    forall g, i :: g in groups && IsSlot(slots, g, i)
      ==> slots[g][i].Some? && slots[g][i].value in options && options[slots[g][i].value].Keys <= groups
  }

  /** Wherever row `q` could go, a visited row sits. */
  ghost predicate Blocked(slots: Slots, options: map<int, Options>, q: int, visited: set<int>)
    requires q in options
  {
    forall g, i :: g in options[q] && IsSlot(slots, g, i) ==> slots[g][i].Some? && slots[g][i].value in visited
  }

  ghost predicate AllBlocked(slots: Slots, options: map<int, Options>, rows: set<int>, visited: set<int>) {
    forall q :: q in rows ==> q in options && Blocked(slots, options, q, visited)
  }

  lemma BlockedJoin(slots: Slots, options: map<int, Options>, rows: set<int>, visited: set<int>, rows': set<int>,
                    visited': set<int>, all: set<int>)
    requires AllBlocked(slots, options, rows, visited) && AllBlocked(slots, options, rows', visited')
    requires visited <= visited' && all <= rows + rows'
    ensures AllBlocked(slots, options, all, visited')
  {
  }

  /** Slots held by these rows are as they were. */
  ghost predicate Keeps(slots: Slots, slots': Slots, rows: set<int>) {
    forall g, i :: IsSlot(slots, g, i) && slots[g][i].Some? && slots[g][i].value in rows
      ==> IsSlot(slots', g, i) && slots'[g][i] == slots[g][i]
  }

  /** Slots of these groups are as they were. */
  ghost predicate KeepsGroups(slots: Slots, slots': Slots, groups: set<int>) {
    forall g :: g in groups && 0 <= g < |slots| && g < |slots'| ==> slots'[g] == slots[g]
  }

  /** `slots'` places `row` once more than `slots`: one free slot fewer, everything else conserved. */
  ghost predicate Placed(slots: Slots, slots': Slots, row: int) {
    None in Contents(slots) && Contents(slots') == Contents(slots) - multiset{None} + multiset{Some(row)}
  }

  /** Writing over one slot changes no other. */
  lemma SlotWritten(slots: Slots, g: int, i: int, x: Option<int>)
    requires IsSlot(slots, g, i)
    ensures var slots' := slots[g := slots[g][i := x]];
            && SameShape(slots, slots') && slots'[g][i] == x
            && forall h, j :: IsSlot(slots, h, j) && !(h == g && j == i) ==> slots'[h][j] == slots[h][j]
  {
  }

  lemma StaysKnown(slots: Slots, row: int, g: int, i: int, options: map<int, Options>)
    requires IsSlot(slots, g, i) && Known(slots, options) && row in options && g in options[row]
    ensures Known(slots[g := slots[g][i := Some(row)]], options)
  {
    var slots' := slots[g := slots[g][i := Some(row)]];
    SlotWritten(slots, g, i, Some(row));
    forall h, j | IsSlot(slots', h, j) && slots'[h][j].Some?
      ensures slots'[h][j].value in options && h in options[slots'[h][j].value]
    {
      assert IsSlot(slots, h, j);
    }
  }

  lemma StaysKept(before: Slots, after: Slots, row: int, g: int, i: int, kept: set<int>, closed: set<int>)
    requires IsSlot(before, g, i) && SameShape(before, after) && g !in closed
    requires Keeps(before, after, kept) && KeepsGroups(before, after, closed)
    requires before[g][i].Some? ==> before[g][i].value !in kept
    ensures var slots := after[g := after[g][i := Some(row)]];
            SameShape(before, slots) && Keeps(before, slots, kept) && KeepsGroups(before, slots, closed)
  {
    SlotWritten(after, g, i, Some(row));
  }

  /** Swapping one entry for another after a free slot has been swapped for the first. */
  lemma SwapTwice(a: multiset<Option<int>>, b: multiset<Option<int>>, c: multiset<Option<int>>, x: Option<int>, y: Option<int>)
    requires None in a && b == a - multiset{None} + multiset{x} && c == b - multiset{x} + multiset{y}
    ensures c == a - multiset{None} + multiset{y}
  {
  }

  /** Writing `row` over a free slot, or over a row that has just been placed once more, places
      `row` and nothing else. */
  lemma TakeSlot(before: Slots, after: Slots, row: int, g: int, i: int, kept: set<int>, closed: set<int>,
                 options: map<int, Options>)
    requires IsSlot(before, g, i) && SameShape(before, after) && g !in closed
    requires Known(after, options) && row in options && g in options[row]
    requires Keeps(before, after, kept) && KeepsGroups(before, after, closed)
    requires after[g][i] == before[g][i]
    requires before[g][i].None? ==> after == before
    requires before[g][i].Some? ==> before[g][i].value !in kept && Placed(before, after, before[g][i].value)
    ensures var slots := after[g := after[g][i := Some(row)]];
            && SameShape(before, slots) && Known(slots, options)
            && Keeps(before, slots, kept) && KeepsGroups(before, slots, closed)
            && Placed(before, slots, row)
  {
    hide Contents, Known, Keeps, KeepsGroups;
    UpdateContents(after, g, i, Some(row));
    StaysKnown(after, row, g, i, options);
    StaysKept(before, after, row, g, i, kept, closed);
    if before[g][i].Some? {
      SwapTwice(Contents(before), Contents(after), Contents(after[g := after[g][i := Some(row)]]), before[g][i], Some(row));
    }
  }

  class RowSelector {
    var slots: Slots
    var options: map<int, Options>

    constructor (groups: seq<LengthGroup>)
      ensures options == map[]
      ensures slots == seq(|groups|, g requires 0 <= g < |groups| => seq(groups[g].count, _ => None))
    {
      options := map[];
      slots := seq(|groups|, g requires 0 <= g < |groups| => seq(groups[g].count, _ => None));
    }

    /** Try to give `row` one more slot, moving already placed rows out of the way. A failure leaves
        the slots alone and shows that every visited row is blocked by visited rows; a success
        adds exactly `row` to what the slots hold. Rows already visited keep their slots, and so
        does every closed set of groups. */
    method Place(row: int, visited: set<int>, ghost closed: set<int>) returns (ok: bool, visited': set<int>)
      requires Known(slots, options) && row in options && visited <= options.Keys
      requires Closed(slots, closed, options)
      modifies this`slots
      ensures SameShape(old(slots), slots) && Known(slots, options)
      ensures visited <= visited' <= options.Keys && row in visited'
      ensures !ok ==> slots == old(slots) && AllBlocked(slots, options, visited' - visited, visited')
      ensures ok ==> row !in visited && Placed(old(slots), slots, row)
      ensures Keeps(old(slots), slots, visited + {row}) && KeepsGroups(old(slots), slots, closed)
      ensures options[row].Keys <= closed ==> !ok
      decreases options.Keys - visited
    {
      hide Contents;
      if row in visited {
        return false, visited;
      }
      visited' := visited + {row};
      for group := |slots| downto 0
        invariant slots == old(slots) && visited + {row} <= visited' <= options.Keys
        invariant AllBlocked(slots, options, visited' - visited - {row}, visited')
        invariant forall g, i :: group <= g && g in options[row] && IsSlot(slots, g, i)
                    ==> slots[g][i].Some? && slots[g][i].value in visited'
      {
        if group in options[row] {
          for i := 0 to |slots[group]|
            invariant slots == old(slots) && visited + {row} <= visited' <= options.Keys
            invariant AllBlocked(slots, options, visited' - visited - {row}, visited')
            invariant forall g, j :: group < g && g in options[row] && IsSlot(slots, g, j)
                        ==> slots[g][j].Some? && slots[g][j].value in visited'
            invariant forall j :: 0 <= j < i ==> slots[group][j].Some? && slots[group][j].value in visited'
          {
            var previous := slots[group][i];
            assert IsSlot(slots, group, i);
            var free := previous.None?;
            if !free {
              ghost var seen := visited';
              free, visited' := Place(previous.value, visited', closed);
              if !free {
                BlockedJoin(slots, options, seen - visited - {row}, seen, visited' - seen, visited', visited' - visited - {row});
              }
            }
            if free {
              TakeSlot(old(slots), slots, row, group, i, visited + {row}, closed, options);
              slots := slots[group := slots[group][i := Some(row)]];
              return true, visited';
            }
          }
        }
      }
      assert Blocked(slots, options, row, visited');
      return false, visited';
    }

    /** Offer one new row: it is placed, or dropped for good. */
    method Consider(row: int, eligible: Options, ghost groups: seq<LengthGroup>, ghost views: int -> RowView,
                    ghost done: set<int>, ghost closed: set<int>) returns (ghost closed': set<int>)
      requires Progress(slots, options, groups, views, done, closed) && row !in done
      requires eligible == Usable(views(row), groups)
      modifies this
      ensures Progress(slots, options, groups, views, done + {row}, closed')
      ensures row in options <==> Contents(slots) != Contents(old(slots))
    {
      hide Contents, Usable;
      ghost var before, recorded := slots, options;
      assert row !in options;
      options := options[row := eligible];
      var ok, visited := Place(row, {}, closed);
      if ok {
        closed' := closed;
        ProgressPlaced(before, slots, recorded, groups, views, done, closed, row);
        assert Contents(slots)[Some(row)] != Contents(before)[Some(row)];
      } else {
        closed' := closed + Reached(options, visited);
        assert visited - {} == visited;
        ProgressDropped(slots, recorded, groups, views, done, closed, row, options, visited);
        options := options - {row};
        assert options == recorded;
      }
    }
  }

  // ---------------------------------------------------------------------------
  // The selection loop

  ghost function Counts(groups: seq<LengthGroup>): seq<nat> {
    seq(|groups|, g requires 0 <= g < |groups| => groups[g].count)
  }

  /** Between two rows: the recorded rows are exactly those in slots, each once, and every row that
      has been dropped is confined to groups that are closed for good. */
  ghost predicate Progress(slots: Slots, options: map<int, Options>, groups: seq<LengthGroup>, views: int -> RowView,
                           done: set<int>, closed: set<int>) {
    && HasShape(slots, Counts(groups))
    && Known(slots, options)
    && Closed(slots, closed, options)
    && options.Keys <= done
    && (forall r :: r in options ==> options[r] == Usable(views(r), groups))
    && (forall r :: Contents(slots)[Some(r)] == if r in options then 1 else 0)
    && (forall r :: r in done ==> r in options || Usable(views(r), groups).Keys <= closed)
  }

  lemma {:induction false} EmptyContents(slots: Slots, x: Option<int>)
    requires forall g, i :: IsSlot(slots, g, i) ==> slots[g][i] == None
    requires x.Some?
    ensures Contents(slots)[x] == 0
  {
    if slots != [] {
      var last := |slots| - 1;
      assert forall g, i :: IsSlot(slots[..last], g, i) ==> IsSlot(slots, g, i);
      EmptyContents(slots[..last], x);
      assert forall i :: 0 <= i < |slots[last]| ==> IsSlot(slots, last, i);
      assert x !in slots[last];
    }
  }

  lemma ProgressAtFirst(slots: Slots, groups: seq<LengthGroup>, views: int -> RowView)
    requires slots == seq(|groups|, g requires 0 <= g < |groups| => seq(groups[g].count, _ => None))
    ensures Progress(slots, map[], groups, views, {}, {})
  {
    forall r ensures Contents(slots)[Some(r)] == 0 {
      EmptyContents(slots, Some(r));
    }
  }

  /** A row that has been placed joins the recorded ones. */
  lemma ProgressPlaced(slots: Slots, slots': Slots, options: map<int, Options>, groups: seq<LengthGroup>,
                       views: int -> RowView, done: set<int>, closed: set<int>, row: int)
    requires Progress(slots, options, groups, views, done, closed) && row !in done
    requires SameShape(slots, slots') && Known(slots', options[row := Usable(views(row), groups)])
    requires Placed(slots, slots', row) && KeepsGroups(slots, slots', closed)
    ensures Progress(slots', options[row := Usable(views(row), groups)], groups, views, done + {row}, closed)
  {
    hide Contents, Usable;
    var options' := options[row := Usable(views(row), groups)];
    forall g, i | g in closed && IsSlot(slots', g, i)
      ensures slots'[g][i].Some? && slots'[g][i].value in options' && options'[slots'[g][i].value].Keys <= closed
    {
      assert IsSlot(slots, g, i);
    }
    forall r ensures Contents(slots')[Some(r)] == if r in options' then 1 else 0 {
    }
  }

  /** The groups of the visited rows. */
  ghost function Reached(options: map<int, Options>, visited: set<int>): set<int>
    requires visited <= options.Keys
  {
    set q, g | q in visited && g in options[q] :: g
  }

  /** A row that could not be placed is confined, with all rows visited on its behalf, to groups
      that are closed from now on. */
  lemma ProgressDropped(slots: Slots, options: map<int, Options>, groups: seq<LengthGroup>, views: int -> RowView,
                        done: set<int>, closed: set<int>, row: int, options': map<int, Options>, visited: set<int>)
    requires Progress(slots, options, groups, views, done, closed) && row !in done
    requires options' == options[row := Usable(views(row), groups)]
    requires row in visited && visited <= options'.Keys && AllBlocked(slots, options', visited, visited)
    ensures Progress(slots, options, groups, views, done + {row}, closed + Reached(options', visited))
  {
    hide Contents, Usable;
    var closed' := closed + Reached(options', visited);
    forall g, i | g in closed' && IsSlot(slots, g, i)
      ensures slots[g][i].Some? && slots[g][i].value in options && options[slots[g][i].value].Keys <= closed'
    {
      if g !in closed {
        var q :| q in visited && g in options'[q];
        assert Blocked(slots, options', q, visited);
        UnplacedHoldsNothing(slots, row, g, i);
        var p := slots[g][i].value;
        assert forall h :: h in options'[p] ==> h in Reached(options', visited);
      }
    }
    assert forall h :: h in options'[row] ==> h in Reached(options', visited);
  }

  lemma UnplacedHoldsNothing(slots: Slots, row: int, g: int, i: int)
    requires Contents(slots)[Some(row)] == 0 && IsSlot(slots, g, i)
    ensures slots[g][i] != Some(row)
  {
  }

  /** A row that fits no group changes nothing. */
  lemma ProgressSkipped(slots: Slots, options: map<int, Options>, groups: seq<LengthGroup>, views: int -> RowView,
                        done: set<int>, closed: set<int>, row: int)
    requires Progress(slots, options, groups, views, done, closed)
    requires Usable(views(row), groups) == map[]
    ensures Progress(slots, options, groups, views, done + {row}, closed)
  {
  }

  ghost predicate Full(slots: Slots) {
    forall g, i :: IsSlot(slots, g, i) ==> slots[g][i].Some?
  }

  ghost function RowsOf(slots: Slots): seq<seq<int>>
    requires Full(slots)
  {
    seq(|slots|, g requires 0 <= g < |slots| =>
      seq(|slots[g]|, i requires 0 <= i < |slots[g]| && IsSlot(slots, g, i) => slots[g][i].value))
  }

  /** Full slots are a full assignment. */
  lemma FullFills(slots: Slots, options: map<int, Options>, groups: seq<LengthGroup>, views: int -> RowView,
                  done: set<int>, closed: set<int>)
    requires Progress(slots, options, groups, views, done, closed) && Full(slots)
    ensures Fills(RowsOf(slots), Counts(groups), done, GroupsOf(views, groups))
  {
    hide Contents;
    var assignment, counts := RowsOf(slots), Counts(groups);
    forall g, i | 0 <= g < |counts| && 0 <= i < counts[g]
      ensures assignment[g][i] in done && g in GroupsOf(views, groups)(assignment[g][i])
    {
      assert IsSlot(slots, g, i);
      GroupsAt(views, groups, assignment[g][i]);
    }
    forall g, i, h, j | 0 <= g < |counts| && 0 <= i < counts[g] && 0 <= h < |counts| && 0 <= j < counts[h]
                        && assignment[g][i] == assignment[h][j]
      ensures g == h && i == j
    {
      assert IsSlot(slots, g, i) && IsSlot(slots, h, j);
      HeldOnce(slots, g, i, h, j);
    }
  }

  /** With every row handled and a slot still free, no full assignment exists. */
  lemma FreeSlotMeansUnavailable(slots: Slots, options: map<int, Options>, groups: seq<LengthGroup>,
                                 views: int -> RowView, done: set<int>, closed: set<int>, g: int, i: int,
                                 assignment: seq<seq<int>>)
    requires Progress(slots, options, groups, views, done, closed)
    requires IsSlot(slots, g, i) && slots[g][i] == None
    ensures !Fills(assignment, Counts(groups), done, GroupsOf(views, groups))
  {
    hide Contents, Fills;
    var eligible := GroupsOf(views, groups);
    forall g, i | g in closed && IsSlot(slots, g, i)
      ensures slots[g][i].Some? && eligible(slots[g][i].value) <= closed
    {
      GroupsAt(views, groups, slots[g][i].value);
    }
    forall r | r in done ensures eligible(r) <= closed || Some(r) in Contents(slots) {
      GroupsAt(views, groups, r);
      assert Contents(slots)[Some(r)] == if r in options then 1 else 0;
    }
    CoverageImpossible(slots, Counts(groups), done, eligible, closed, g, i, assignment);
  }

  datatype Selection =
    | Selected(entries: seq<(int, Prefix)>)
    | CoverageUnavailable(missing: map<int, nat>)
    | RowFetchFailed(row: int)

  /** The selected prefixes of the first `k` groups, group by group, slot by slot. */
  ghost function Entries(assignment: seq<seq<int>>, views: int -> RowView, groups: seq<LengthGroup>, k: nat)
    : seq<(int, Prefix)>
    requires k <= |assignment|
    requires forall g, i :: 0 <= g < |assignment| && 0 <= i < |assignment[g]|
               ==> g in Usable(views(assignment[g][i]), groups)
  {
    if k == 0 then [] else
    Entries(assignment, views, groups, k - 1)
    + seq(|assignment[k - 1]|, i requires 0 <= i < |assignment[k - 1]| =>
        (k - 1, Usable(views(assignment[k - 1][i]), groups)[k - 1]))
  }

  /** The selection fills every group with distinct rows, each by the prefix that fits there. */
  ghost predicate Covers(entries: seq<(int, Prefix)>, assignment: seq<seq<int>>, rows: set<int>,
                         views: int -> RowView, groups: seq<LengthGroup>) {
    && Fills(assignment, Counts(groups), rows, GroupsOf(views, groups))
    && (forall g, i :: 0 <= g < |assignment| && 0 <= i < |assignment[g]|
          ==> g in Usable(views(assignment[g][i]), groups))
    && entries == Entries(assignment, views, groups, |assignment|)
  }

  // ---------------------------------------------------------------------------
  // What is selected, and after how many rows

  /** How many slots the first `k` groups have. */
  ghost function Offset(groups: seq<LengthGroup>, k: nat): nat
    requires k <= |groups|
  {
    if k == 0 then 0 else Offset(groups, k - 1) + groups[k - 1].count
  }

  /** Each group in turn gets its number of entries, each the last prefix of its row that fits, and no
      row gives two. */
  ghost predicate Fair(entries: seq<(int, Prefix)>, rows: seq<int>, pool: set<int>, views: int -> RowView, groups: seq<LengthGroup>) {
    && |entries| == |rows| == Offset(groups, |groups|)
    && Distinct(rows) && (forall i :: 0 <= i < |rows| ==> rows[i] in pool)
    && forall g, i :: 0 <= g < |groups| && 0 <= i < groups[g].count ==> FairAt(entries, rows, views, groups, g, i)
  }

  ghost predicate FairAt(entries: seq<(int, Prefix)>, rows: seq<int>, views: int -> RowView, groups: seq<LengthGroup>, g: int, i: int)
    requires 0 <= g < |groups| && 0 <= i && |entries| == |rows|
  {
    var k := Offset(groups, g) + i;
    k < |entries| && entries[k].0 == g && views(rows[k]).Rendered? && LastFit(views(rows[k]).prefixes, groups[g], entries[k].1)
  }

  ghost function InTurn(assignment: seq<seq<int>>, k: nat): seq<int>
    requires k <= |assignment|
  {
    if k == 0 then [] else InTurn(assignment, k - 1) + assignment[k - 1]
  }

  ghost predicate Shaped(assignment: seq<seq<int>>, views: int -> RowView, groups: seq<LengthGroup>) {
    && |assignment| == |groups| && (forall g :: 0 <= g < |groups| ==> |assignment[g]| == groups[g].count)
    && forall g, i :: 0 <= g < |assignment| && 0 <= i < |assignment[g]| ==> g in Usable(views(assignment[g][i]), groups)
  }

  /** What stands at the place of slot `i` of group `g`. */
  ghost predicate InPlace(assignment: seq<seq<int>>, views: int -> RowView, groups: seq<LengthGroup>, k: nat, g: int, i: int)
    requires Shaped(assignment, views, groups) && 0 <= g < k <= |groups| && 0 <= i < groups[g].count
    requires |Entries(assignment, views, groups, k)| == |InTurn(assignment, k)| == Offset(groups, k)
  {
    var n := Offset(groups, g) + i;
    && n < Offset(groups, k)
    && Entries(assignment, views, groups, k)[n] == (g, Usable(views(assignment[g][i]), groups)[g])
    && InTurn(assignment, k)[n] == assignment[g][i]
  }

  lemma {:induction false} EntriesInTurn(assignment: seq<seq<int>>, views: int -> RowView, groups: seq<LengthGroup>, k: nat)
    requires Shaped(assignment, views, groups) && k <= |groups|
    ensures |Entries(assignment, views, groups, k)| == |InTurn(assignment, k)| == Offset(groups, k)
    ensures forall g, i :: 0 <= g < k && 0 <= i < groups[g].count ==> InPlace(assignment, views, groups, k, g, i)
  {
    hide Usable;
    if k > 0 {
      EntriesInTurn(assignment, views, groups, k - 1);
      forall g, i | 0 <= g < k && 0 <= i < groups[g].count ensures InPlace(assignment, views, groups, k, g, i) {
        assert g < k - 1 ==> InPlace(assignment, views, groups, k - 1, g, i);
      }
    }
  }

  /** Which slot the `n`-th entry is for. */
  lemma {:induction false} Locate(groups: seq<LengthGroup>, k: nat, n: nat) returns (g: int, i: int)
    requires k <= |groups| && n < Offset(groups, k)
    ensures 0 <= g < k && 0 <= i < groups[g].count && n == Offset(groups, g) + i
  {
    if n < Offset(groups, k - 1) {
      g, i := Locate(groups, k - 1, n);
    } else {
      g, i := k - 1, n - Offset(groups, k - 1);
    }
  }

  lemma CoversFairly(entries: seq<(int, Prefix)>, assignment: seq<seq<int>>, pool: set<int>, views: int -> RowView, groups: seq<LengthGroup>)
    requires Covers(entries, assignment, pool, views, groups)
    ensures Fair(entries, InTurn(assignment, |assignment|), pool, views, groups)
  {
    hide Usable, Entries, InTurn, Offset, LastFit;
    var n := |groups|;
    assert Shaped(assignment, views, groups);
    EntriesInTurn(assignment, views, groups, n);
    var rows := InTurn(assignment, n);
    forall x | 0 <= x < |rows| ensures rows[x] in pool {
      var g, i := Locate(groups, n, x);
      assert InPlace(assignment, views, groups, n, g, i);
    }
    forall x, y | 0 <= x < y < |rows| ensures rows[x] != rows[y] {
      var g, i := Locate(groups, n, x);
      var h, j := Locate(groups, n, y);
      assert InPlace(assignment, views, groups, n, g, i) && InPlace(assignment, views, groups, n, h, j);
    }
    forall g, i | 0 <= g < n && 0 <= i < groups[g].count ensures FairAt(entries, rows, views, groups, g, i) {
      assert InPlace(assignment, views, groups, n, g, i);
      UsableMeans(views(assignment[g][i]), groups, g);
    }
  }

  /** No assignment of distinct eligible rows among the first `k` fills every slot. */
  ghost predicate Unfillable(order: seq<int>, k: nat, views: int -> RowView, groups: seq<LengthGroup>)
    requires k <= |order|
  {
    forall assignment :: !Fills(assignment, Counts(groups), Elements(order[..k]), GroupsOf(views, groups))
  }

  /** The first `k` rows are looked at: all could be fetched, and before any of them the slots could not
      be filled, unless there are none. */
  ghost predicate Visits(order: seq<int>, k: nat, views: int -> RowView, groups: seq<LengthGroup>) {
    && k <= |order|
    && forall j :: 0 <= j < k ==> !views(order[j]).FetchFailed? && (Wanted(groups) ==> Unfillable(order, j, views, groups))
  }

  ghost predicate Wanted(groups: seq<LengthGroup>) {
    exists g :: 0 <= g < |groups| && groups[g].count > 0
  }

  method IsFull(slots: Slots) returns (full: bool)
    ensures full <==> Full(slots)
  {
    for g := 0 to |slots|
      invariant forall h, i :: 0 <= h < g && IsSlot(slots, h, i) ==> slots[h][i].Some?
    {
      for i := 0 to |slots[g]|
        invariant forall j :: 0 <= j < i ==> slots[g][j].Some?
      {
        if slots[g][i].None? {
          assert IsSlot(slots, g, i);
          return false;
        }
      }
    }
    return true;
  }

  /** For each group with free slots, how many. */
  function Missing(slots: Slots): (missing: map<int, nat>)
    ensures missing == map[] <==> Full(slots)
  {
    var missing := map g: int | 0 <= g < |slots| && None in slots[g] :: multiset(slots[g])[None];
    assert Full(slots) ==> missing == map[] by {
      assert forall g :: 0 <= g < |slots| && Full(slots) ==> None !in slots[g] by {
        assert forall g, i :: 0 <= g < |slots| && 0 <= i < |slots[g]| ==> IsSlot(slots, g, i);
      }
    }
    assert missing == map[] ==> Full(slots) by {
      assert forall g :: 0 <= g < |slots| && None in slots[g] ==> g in missing;
    }
    missing
  }

  /** Read the selection off full slots. */
  method Collect(slots: Slots, options: map<int, Options>, ghost groups: seq<LengthGroup>,
                 ghost views: int -> RowView, ghost done: set<int>, ghost closed: set<int>)
    returns (entries: seq<(int, Prefix)>)
    requires Progress(slots, options, groups, views, done, closed) && Full(slots)
    ensures Covers(entries, RowsOf(slots), done, views, groups)
  {
    hide Contents, Usable, Fills, Closed;
    ghost var rows := RowsOf(slots);
    FullFills(slots, options, groups, views, done, closed);
    forall g, i | 0 <= g < |rows| && 0 <= i < |rows[g]|
      ensures IsSlot(slots, g, i) && rows[g][i] in options && g in options[rows[g][i]]
      ensures options[rows[g][i]] == Usable(views(rows[g][i]), groups)
    {
      assert IsSlot(slots, g, i);
      var r := slots[g][i].value;
      assert r in options && options[r] == Usable(views(r), groups);
    }
    entries := [];
    for g := 0 to |slots|
      invariant entries == Entries(rows, views, groups, g)
    {
      ghost var before := entries;
      for i := 0 to |slots[g]|
        invariant |entries| == |before| + i && entries[..|before|] == before
        invariant forall j :: 0 <= j < i ==>
                    entries[|before| + j] == (g, Usable(views(rows[g][j]), groups)[g])
      {
        assert IsSlot(slots, g, i) && rows[g][i] == slots[g][i].value;
        entries := entries + [(g, options[slots[g][i].value][g])];
      }
      assert entries == Entries(rows, views, groups, g + 1);
    }
  }

  /** Walk the rows in order, place each, and stop as soon as every slot is full. The outcome is a
      full assignment found in the fewest first rows that hold one, a fetch error for a row that comes
      before that, or a coverage error only when the pool holds no full assignment at all. */
  method Select(order: seq<int>, views: int -> RowView, groups: seq<LengthGroup>) returns (result: Selection)
    requires Distinct(order)
    ensures result.RowFetchFailed? ==>
              exists k :: 0 <= k < |order| && Visits(order, k, views, groups) && order[k] == result.row && views(result.row).FetchFailed?
                          && (Wanted(groups) ==> Unfillable(order, k, views, groups))
    ensures result.CoverageUnavailable? ==> Visits(order, |order|, views, groups) && Unfillable(order, |order|, views, groups)
    ensures result.Selected? ==>
              exists k: nat, rows :: Visits(order, k, views, groups) && Fair(result.entries, rows, Elements(order[..k]), views, groups)
    ensures result.RowFetchFailed? ==> result.row in order && views(result.row).FetchFailed?
    ensures result.CoverageUnavailable? ==>
              forall assignment :: !Fills(assignment, Counts(groups), Elements(order), GroupsOf(views, groups))
    ensures result.Selected? ==>
              exists assignment :: Covers(result.entries, assignment, Elements(order), views, groups)
  {
    hide Contents, Usable, Progress, Fills, Covers, Closed, Known, Placed, Full, Missing, Unfillable, Fair, Wanted;
    var selector := new RowSelector(groups);
    ghost var closed: set<int> := {};
    ghost var done: set<int> := {};
    ProgressAtFirst(selector.slots, groups, views);
    FreeAtFirst(selector.slots, groups);
    var k, full := 0, false;
    while k < |order| && !full
      invariant 0 <= k <= |order|
      invariant done == Elements(order[..k])
      invariant full ==> Full(selector.slots)
      invariant Wanted(groups) && !full ==> !Full(selector.slots)
      invariant Visits(order, k, views, groups)
      invariant Progress(selector.slots, selector.options, groups, views, done, closed)
    {
      var row := order[k];
      assert order[..k + 1] == order[..k] + [row] && row !in done;
      if Wanted(groups) {
        NoneYet(selector.slots, selector.options, order, k, groups, views, done, closed);
      }
      var view := views(row);
      if view.FetchFailed? {
        return RowFetchFailed(row);
      }
      var eligible := map[];
      if view.Rendered? {
        eligible := EligiblePrefixes(view.prefixes, groups);
      } else {
        NothingUsable(view, groups);
      }
      if eligible == map[] {
        ProgressSkipped(selector.slots, selector.options, groups, views, done, closed, row);
      } else {
        closed := selector.Consider(row, eligible, groups, views, done, closed);
        full := IsFull(selector.slots);
      }
      done := done + {row};
      k := k + 1;
    }
    var missing := Missing(selector.slots);
    if missing != map[] {
      assert order[..|order|] == order;
      NoneYet(selector.slots, selector.options, order, |order|, groups, views, done, closed);
      NoneAvailable(selector.slots, selector.options, groups, views, done, closed);
      return CoverageUnavailable(missing);
    }
    var entries := Collect(selector.slots, selector.options, groups, views, done, closed);
    CoversFairly(entries, RowsOf(selector.slots), done, views, groups);
    CoversMore(entries, RowsOf(selector.slots), done, Elements(order), views, groups);
    return Selected(entries);
  }

  lemma FreeAtFirst(slots: Slots, groups: seq<LengthGroup>)
    requires slots == seq(|groups|, g requires 0 <= g < |groups| => seq(groups[g].count, _ => None))
    ensures Wanted(groups) ==> !Full(slots)
  {
    if g :| 0 <= g < |groups| && groups[g].count > 0 {
      assert IsSlot(slots, g, 0) && slots[g][0] == None;
    }
  }

  lemma NoneYet(slots: Slots, options: map<int, Options>, order: seq<int>, k: nat, groups: seq<LengthGroup>, views: int -> RowView,
                done: set<int>, closed: set<int>)
    requires Progress(slots, options, groups, views, done, closed) && !Full(slots)
    requires k <= |order| && done == Elements(order[..k])
    ensures Unfillable(order, k, views, groups)
  {
    hide Progress, Full, Fills;
    NoneAvailable(slots, options, groups, views, done, closed);
  }

  lemma NothingUsable(view: RowView, groups: seq<LengthGroup>)
    ensures !view.Rendered? ==> Usable(view, groups) == map[]
  {
  }

  lemma CoversMore(entries: seq<(int, Prefix)>, assignment: seq<seq<int>>, rows: set<int>, more: set<int>,
                   views: int -> RowView, groups: seq<LengthGroup>)
    requires Covers(entries, assignment, rows, views, groups) && rows <= more
    ensures Covers(entries, assignment, more, views, groups)
  {
  }

  lemma NoneAvailable(slots: Slots, options: map<int, Options>, groups: seq<LengthGroup>, views: int -> RowView,
                      done: set<int>, closed: set<int>)
    requires Progress(slots, options, groups, views, done, closed) && !Full(slots)
    ensures forall assignment :: !Fills(assignment, Counts(groups), done, GroupsOf(views, groups))
  {
    var g, i :| IsSlot(slots, g, i) && slots[g][i].None?;
    forall assignment ensures !Fills(assignment, Counts(groups), done, GroupsOf(views, groups)) {
      FreeSlotMeansUnavailable(slots, options, groups, views, done, closed, g, i, assignment);
    }
  }
}
