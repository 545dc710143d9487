/** The four single-selection groups. A click on item `i` removes the group's
    marker class from every item of the group and then adds it to item `i`. */
module Selection {
  import opened PageModel

  /** Removes marker `m` from every item and adds it back to item `i`; every
      other class of every item is left as it was. */
  function MarkOnly(items: seq<Classes>, i: nat, m: string): (r: seq<Classes>)
    requires i < |items|
    ensures |r| == |items|
    ensures forall k :: 0 <= k < |r| ==> (m in r[k] <==> k == i)
    ensures forall k :: 0 <= k < |r| ==> r[k] - {m} == items[k] - {m}
  {
    seq(|items|, k requires 0 <= k < |items| =>
      (items[k] - {m}) + (if k == i then {m} else {}))
  }

  /** Click on item `i` of group `g`. */
  function Select(p: Page, g: Group, i: nat): (r: Page)
    requires i < |Members(p, g)|
    ensures |Members(r, g)| == |Members(p, g)|
    ensures forall k :: 0 <= k < |Members(r, g)| ==> (Marker(g) in Members(r, g)[k] <==> k == i)
    ensures forall k :: 0 <= k < |Members(r, g)| ==>
      Members(r, g)[k] - {Marker(g)} == Members(p, g)[k] - {Marker(g)}
    ensures forall h :: h != g ==> Members(r, h) == Members(p, h)
    ensures OutsideGroupsUnchanged(p, r)
  {
    WithMembers(p, g, MarkOnly(Members(p, g), i, Marker(g)))
  }

  /** The number of items carrying class `m`. */
  function CountMarked(items: seq<Classes>, m: string): nat {
    if |items| == 0 then 0
    else (if m in items[0] then 1 else 0) + CountMarked(items[1..], m)
  }

  /** A group in which exactly item `i` carries `m` has exactly one marked item. */
  lemma {:induction false} CountWhenOnlyOneMarked(items: seq<Classes>, m: string, i: nat)
    requires i < |items|
    requires forall k :: 0 <= k < |items| ==> (m in items[k] <==> k == i)
    ensures CountMarked(items, m) == 1
  {
    if i == 0 {
      CountNoneMarked(items[1..], m);
    } else {
      CountWhenOnlyOneMarked(items[1..], m, i - 1);
    }
  }

  lemma {:induction false} CountNoneMarked(items: seq<Classes>, m: string)
    requires forall k :: 0 <= k < |items| ==> m !in items[k]
    ensures CountMarked(items, m) == 0
  {
    if |items| > 0 {
      CountNoneMarked(items[1..], m);
    }
  }

  /** After a selection the group has exactly one marked member, and it is `i`. */
  lemma SelectLeavesExactlyOne(p: Page, g: Group, i: nat)
    requires i < |Members(p, g)|
    ensures CountMarked(Members(Select(p, g, i), g), Marker(g)) == 1
    ensures Marker(g) in Members(Select(p, g, i), g)[i]
  {
    CountWhenOnlyOneMarked(Members(Select(p, g, i), g), Marker(g), i);
  }

  /** Selecting keeps the single-selection discipline of the whole page. */
  lemma SelectKeepsSingleSelection(p: Page, g: Group, i: nat)
    requires i < |Members(p, g)|
    requires SingleSelection(p)
    ensures SingleSelection(Select(p, g, i))
  {
  }

  /** A later selection in the same group overrides an earlier one: after
      clicking `i` and then `j`, only `j` is marked. */
  lemma SelectLastWins(p: Page, g: Group, i: nat, j: nat)
    requires i < |Members(p, g)| && j < |Members(p, g)|
    ensures Select(Select(p, g, i), g, j) == Select(p, g, j)
  {
  }

  /** Selections in different groups do not interfere, so their order is irrelevant. */
  lemma SelectOtherGroupsCommute(p: Page, g: Group, i: nat, h: Group, j: nat)
    requires g != h
    requires i < |Members(p, g)| && j < |Members(p, h)|
    ensures Select(Select(p, g, i), h, j) == Select(Select(p, h, j), g, i)
  {
  }
}
