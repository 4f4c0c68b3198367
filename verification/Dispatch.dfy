/** Command routing by priority (bots/base.py, bots/plugins/webex_bot.py). */
module Dispatch {
  import opened Prelude

  /** A registered handler; `pattern` names a compiled regular expression. */
  datatype Route = Route(priority: int, pattern: nat, handler: nat)

  type Routes = seq<Route>

  /** Whether `pattern.search(text)` finds something. */
  type Search = (nat, string) -> bool

  /* ---------- the stable sort ---------- */

  predicate Sorted(routes: Routes) {
    forall i, j | 0 <= i < j < |routes| :: routes[i].priority <= routes[j].priority
  }

  function OfPriority(routes: Routes, p: int): Routes {
    if routes == [] then []
    else (if routes[0].priority == p then [routes[0]] else []) + OfPriority(routes[1..], p)
  }

  /** What `list.sort(key=priority)` promises: ascending, and each priority's routes as they were and in their order. */
  ghost predicate IsStableSortOf(after: Routes, before: Routes) {
    Sorted(after) && forall p :: OfPriority(after, p) == OfPriority(before, p)
  }

  /** Where a stable sort puts an appended route: before the first of larger priority. */
  function InsertionPoint(routes: Routes, priority: int): (k: nat)
    ensures k <= |routes|
    ensures forall i | 0 <= i < k :: routes[i].priority <= priority
    ensures k < |routes| ==> routes[k].priority > priority
  {
    if routes == [] || routes[0].priority > priority then 0 else 1 + InsertionPoint(routes[1..], priority)
  }

  function Inserted(routes: Routes, r: Route): Routes {
    var k := InsertionPoint(routes, r.priority);
    routes[..k] + [r] + routes[k..]
  }

  function StablySorted(routes: Routes): Routes {
    if routes == [] then [] else Inserted(StablySorted(routes[..|routes| - 1]), routes[|routes| - 1])
  }

  lemma {:induction false} OfPriorityJoins(a: Routes, b: Routes, p: int)
    ensures OfPriority(a + b, p) == OfPriority(a, p) + OfPriority(b, p)
  {
    if a == [] {
      assert a + b == b;
    } else {
      OfPriorityJoins(a[1..], b, p);
      assert (a + b)[0] == a[0] && (a + b)[1..] == a[1..] + b;
      var first := if a[0].priority == p then [a[0]] else [];
      assert (first + OfPriority(a[1..], p)) + OfPriority(b, p) == first + (OfPriority(a[1..], p) + OfPriority(b, p));
    }
  }

  lemma {:induction false} OfOtherPriority(routes: Routes, p: int)
    requires forall i | 0 <= i < |routes| :: routes[i].priority != p
    ensures OfPriority(routes, p) == []
  {
    if routes != [] {
      OfOtherPriority(routes[1..], p);
    }
  }

  lemma InsertedIsSorted(routes: Routes, r: Route)
    requires Sorted(routes)
    ensures Sorted(Inserted(routes, r))
  {
    hide InsertionPoint;
    var k, after := InsertionPoint(routes, r.priority), Inserted(routes, r);
    assert forall i | 0 <= i < |after| :: after[i] == if i < k then routes[i] else if i == k then r else routes[i - 1];
    assert forall i | k <= i < |routes| :: routes[k].priority <= routes[i].priority;
  }

  lemma SwapWithEmpty(a: Routes, b: Routes, c: Routes)
    requires b == [] || c == []
    ensures (a + b) + c == (a + c) + b
  {
  }

  predicate AtMost(routes: Routes, p: int) {
    forall i | 0 <= i < |routes| :: routes[i].priority <= p
  }

  predicate Above(routes: Routes, p: int) {
    forall i | 0 <= i < |routes| :: routes[i].priority > p
  }

  /** Insertion splits a sorted list into what stays before the new route and what moves behind it. */
  lemma InsertionSplits(routes: Routes, r: Route) returns (head: Routes, tail: Routes)
    requires Sorted(routes)
    ensures head + tail == routes && Inserted(routes, r) == head + [r] + tail
    ensures AtMost(head, r.priority) && Above(tail, r.priority)
  {
    hide InsertionPoint, Inserted;
    var k := InsertionPoint(routes, r.priority);
    head, tail := routes[..k], routes[k..];
    assert head + tail == routes;
    assert Inserted(routes, r) == head + [r] + tail by { InsertedIs(routes, r); }
    forall i | 0 <= i < |tail| ensures tail[i].priority > r.priority {
      assert tail[i] == routes[k + i];
    }
    forall i | 0 <= i < |head| ensures head[i].priority <= r.priority {
      assert head[i] == routes[i];
    }
  }

  lemma InsertedIs(routes: Routes, r: Route)
    ensures Inserted(routes, r)
        == routes[..InsertionPoint(routes, r.priority)] + [r] + routes[InsertionPoint(routes, r.priority)..]
  {
    hide InsertionPoint;
  }

  lemma OthersOfPriority(r: Route, tail: Routes, p: int)
    requires Above(tail, r.priority)
    ensures OfPriority([r], p) == [] || OfPriority(tail, p) == []
  {
    if p == r.priority {
      OfOtherPriority(tail, p);
    } else {
      OfOtherPriority([r], p);
    }
  }

  lemma InsertedOfPriority(routes: Routes, r: Route, p: int)
    requires Sorted(routes)
    ensures OfPriority(Inserted(routes, r), p) == OfPriority(routes + [r], p)
  {
    hide OfPriority, Inserted, Sorted, AtMost, Above;
    var head, tail := InsertionSplits(routes, r);
    OthersOfPriority(r, tail, p);
    OfPriorityJoins(head + [r], tail, p);
    OfPriorityJoins(head, [r], p);
    OfPriorityJoins(head, tail, p);
    OfPriorityJoins(routes, [r], p);
    SwapWithEmpty(OfPriority(head, p), OfPriority([r], p), OfPriority(tail, p));
  }

  lemma InsertIsStable(routes: Routes, r: Route)
    requires Sorted(routes)
    ensures IsStableSortOf(Inserted(routes, r), routes + [r])
  {
    hide OfPriority, Inserted, Sorted;
    InsertedIsSorted(routes, r);
    forall p ensures OfPriority(Inserted(routes, r), p) == OfPriority(routes + [r], p) {
      InsertedOfPriority(routes, r, p);
    }
  }

  lemma {:induction false} StablySortedIsStableSort(routes: Routes)
    ensures IsStableSortOf(StablySorted(routes), routes)
  {
    hide Inserted, OfPriority;
    if routes == [] {
      assert Sorted([]);
    } else {
      var n := |routes| - 1;
      var front := StablySorted(routes[..n]);
      StablySortedIsStableSort(routes[..n]);
      InsertIsStable(front, routes[n]);
      assert routes == routes[..n] + [routes[n]];
      forall p ensures OfPriority(StablySorted(routes), p) == OfPriority(routes, p) {
        OfPriorityJoins(front, [routes[n]], p);
        OfPriorityJoins(routes[..n], [routes[n]], p);
      }
    }
  }

  lemma {:induction false} OfPriorityHead(routes: Routes, p: int)
    requires OfPriority(routes, p) != []
    ensures exists i :: 0 <= i < |routes| && routes[i].priority == p && routes[i] == OfPriority(routes, p)[0]
  {
    if routes[0].priority == p {
      assert routes[0] == OfPriority(routes, p)[0];
    } else {
      OfPriorityHead(routes[1..], p);
      var i :| 0 <= i < |routes[1..]| && routes[1..][i].priority == p
          && routes[1..][i] == OfPriority(routes[1..], p)[0];
      assert routes[i + 1] == OfPriority(routes, p)[0];
    }
  }

  ghost predicate SameByPriority(a: Routes, b: Routes) {
    forall p :: OfPriority(a, p) == OfPriority(b, p)
  }

  lemma SortedHead(routes: Routes, i: nat)
    requires Sorted(routes) && i < |routes|
    ensures routes[0].priority <= routes[i].priority
  {
  }

  lemma HeadOfPriority(routes: Routes)
    requires routes != []
    ensures OfPriority(routes, routes[0].priority) == [routes[0]] + OfPriority(routes[1..], routes[0].priority)
  {
  }

  lemma HeadsAgree(a: Routes, b: Routes)
    requires a != [] && Sorted(a) && Sorted(b) && SameByPriority(a, b)
    ensures b != [] && a[0] == b[0]
  {
    hide OfPriority, Sorted;
    HeadOfPriority(a);
    assert OfPriority(a, a[0].priority)[0] == a[0];
    OfPriorityHead(b, a[0].priority);
    var i: nat :| i < |b| && b[i].priority == a[0].priority;
    SortedHead(b, i);
    HeadOfPriority(b);
    assert OfPriority(b, b[0].priority)[0] == b[0];
    OfPriorityHead(a, b[0].priority);
    var j: nat :| j < |a| && a[j].priority == b[0].priority;
    SortedHead(a, j);
  }

  lemma TailsAgree(a: Routes, b: Routes, p: int)
    requires a != [] && b != [] && a[0] == b[0] && OfPriority(a, p) == OfPriority(b, p)
    ensures OfPriority(a[1..], p) == OfPriority(b[1..], p)
  {
    var x, y := OfPriority(a[1..], p), OfPriority(b[1..], p);
    if p == a[0].priority {
      assert x == ([a[0]] + x)[1..] && y == ([b[0]] + y)[1..];
    } else {
      assert [] + x == x && [] + y == y;
    }
  }

  /** There is only one stable sort of a list. */
  lemma {:induction false} StableSortIsUnique(a: Routes, b: Routes)
    requires Sorted(a) && Sorted(b) && SameByPriority(a, b)
    ensures a == b
  {
    if a == [] {
      if b != [] {
        HeadsAgree(b, a);
      }
    } else {
      HeadsAgree(a, b);
      hide OfPriority;
      forall p ensures OfPriority(a[1..], p) == OfPriority(b[1..], p) {
        TailsAgree(a, b, p);
      }
      StableSortIsUnique(a[1..], b[1..]);
      assert a == [a[0]] + a[1..] && b == [b[0]] + b[1..];
    }
  }

  /** Appending and sorting again after every registration gives what sorting all registrations once would. */
  lemma AppendThenSort(registered: Routes, r: Route, after: Routes)
    requires IsStableSortOf(after, StablySorted(registered) + [r])
    ensures after == StablySorted(registered + [r])
  {
    hide StablySorted;
    StablySortedIsStableSort(registered);
    StablySortedIsStableSort(registered + [r]);
    forall p ensures OfPriority(after, p) == OfPriority(StablySorted(registered + [r]), p) {
      OfPriorityJoins(StablySorted(registered), [r], p);
      OfPriorityJoins(registered, [r], p);
    }
    StableSortIsUnique(after, StablySorted(registered + [r]));
  }

  /* ---------- dispatch ---------- */

  function FirstMatch(search: Search, routes: Routes, text: string): Option<Route> {
    if routes == [] then None
    else if search(routes[0].pattern, text) then Some(routes[0])
    else FirstMatch(search, routes[1..], text)
  }

  /** Registration `b` matches, and every other matching one has larger priority, or the same and came later. */
  ghost predicate IsBest(search: Search, registered: Routes, text: string, b: nat) {
    && b < |registered| && search(registered[b].pattern, text)
    && forall j: nat | j < |registered| && j != b && search(registered[j].pattern, text) ::
         registered[b].priority < registered[j].priority || (registered[b].priority == registered[j].priority && b < j)
  }

  lemma {:induction false} FirstMatchJoins(search: Search, a: Routes, b: Routes, text: string)
    ensures var r := FirstMatch(search, a, text);
            FirstMatch(search, a + b, text) == if r.Some? then r else FirstMatch(search, b, text)
  {
    if a == [] {
      assert a + b == b;
    } else {
      FirstMatchJoins(search, a[1..], b, text);
      assert (a + b)[1..] == a[1..] + b;
    }
  }

  lemma {:induction false} FirstMatchIsThere(search: Search, routes: Routes, text: string)
    requires FirstMatch(search, routes, text).Some?
    ensures exists i :: 0 <= i < |routes| && routes[i] == FirstMatch(search, routes, text).value
    ensures search(FirstMatch(search, routes, text).value.pattern, text)
  {
    if !search(routes[0].pattern, text) {
      FirstMatchIsThere(search, routes[1..], text);
      var i :| 0 <= i < |routes[1..]| && routes[1..][i] == FirstMatch(search, routes[1..], text).value;
      assert routes[i + 1] == FirstMatch(search, routes, text).value;
    }
  }

  /** A new route takes over exactly the texts it matches and no route of at most its priority does. */
  lemma InsertedFirstMatch(search: Search, routes: Routes, r: Route, text: string)
    requires Sorted(routes)
    ensures var before := FirstMatch(search, routes, text);
            FirstMatch(search, Inserted(routes, r), text)
            == if search(r.pattern, text) && (before.None? || before.value.priority > r.priority)
                then Some(r)
                else before
  {
    hide FirstMatch, Inserted, Sorted, AtMost, Above;
    var head, tail := InsertionSplits(routes, r);
    MatchPriorities(search, head, tail, r.priority, text);
    SingleMatch(search, r, text);
    FirstMatchJoins(search, head + [r], tail, text);
    FirstMatchJoins(search, head, [r], text);
    FirstMatchJoins(search, head, tail, text);
  }

  lemma SingleMatch(search: Search, r: Route, text: string)
    ensures FirstMatch(search, [r], text) == if search(r.pattern, text) then Some(r) else None
  {
  }

  lemma MatchPriorities(search: Search, head: Routes, tail: Routes, p: int, text: string)
    requires AtMost(head, p) && Above(tail, p)
    ensures var h := FirstMatch(search, head, text); h.Some? ==> h.value.priority <= p
    ensures var t := FirstMatch(search, tail, text); t.Some? ==> t.value.priority > p
  {
    hide FirstMatch;
    if FirstMatch(search, head, text).Some? {
      FirstMatchIsThere(search, head, text);
    }
    if FirstMatch(search, tail, text).Some? {
      FirstMatchIsThere(search, tail, text);
    }
  }

  /** For any registrations, the sorted list's first match is the matching registration least by priority and then by
      order of registration; there is none exactly when nothing matches. */
  lemma {:induction false} DispatchIsBest(search: Search, registered: Routes, text: string)
    ensures match FirstMatch(search, StablySorted(registered), text)
            case Some(r) => exists b: nat :: IsBest(search, registered, text, b) && registered[b] == r
            case None => forall i | 0 <= i < |registered| :: !search(registered[i].pattern, text)
  {
    hide Inserted, Sorted, FirstMatch;
    if registered == [] {
      assert FirstMatch(search, [], text) == None by { NothingMatchesEmpty(search, text); }
    } else {
      var n := |registered| - 1;
      var front, last := registered[..n], registered[n];
      DispatchIsBest(search, front, text);
      StablySortedIsStableSort(front);
      InsertedFirstMatch(search, StablySorted(front), last, text);
      var before := FirstMatch(search, StablySorted(front), text);
      if search(last.pattern, text) && (before.None? || before.value.priority > last.priority) {
        if before.Some? {
          var b: nat :| IsBest(search, front, text, b) && front[b] == before.value;
          assert forall j | 0 <= j < n :: registered[j] == front[j];
        }
        assert IsBest(search, registered, text, n);
      } else if before.Some? {
        var b: nat :| IsBest(search, front, text, b) && front[b] == before.value;
        assert forall j | 0 <= j < n :: registered[j] == front[j];
        assert IsBest(search, registered, text, b);
      }
    }
  }

  lemma NothingMatchesEmpty(search: Search, text: string)
    ensures FirstMatch(search, [], text) == None
  {
  }

  /** At most one registration is best, so the choice is determined. */
  lemma BestIsUnique(search: Search, registered: Routes, text: string, a: nat, b: nat)
    requires IsBest(search, registered, text, a) && IsBest(search, registered, text, b)
    ensures a == b
  {
    assert search(registered[a].pattern, text) && search(registered[b].pattern, text);
  }

  class Bot {
    var routes: Routes
    ghost var registered: Routes

    ghost predicate Valid()
      reads this
    {
      routes == StablySorted(registered)
    }

    constructor ()
      ensures Valid() && registered == []
    {
      routes, registered := [], [];
    }

    /** `hears`: append the route, then sort the list in place by priority. */
    method Hears(r: Route)
      requires Valid()
      modifies this
      ensures Valid() && registered == old(registered) + [r]
    {
      routes := routes + [r];
      Sort();
      registered := registered + [r];
      AppendThenSort(old(registered), r, routes);
    }

    /** `list.sort(key=priority)`, the library's stable sort. */
    method Sort()
      modifies this`routes
      ensures IsStableSortOf(routes, old(routes))
    {
      var sorted: Routes := [];
      for i := 0 to |routes|
        invariant sorted == StablySorted(routes[..i])
        invariant routes == old(routes)
      {
        assert routes[..i + 1][..i] == routes[..i];
        sorted := Inserted(sorted, routes[i]);
      }
      assert routes[..|routes|] == routes;
      StablySortedIsStableSort(routes);
      routes := sorted;
    }

    /** The message branch of `handle_event`: the handler that runs, if any. */
    method HandleMessage(search: Search, text: string) returns (ran: Option<Route>)
      requires Valid()
      ensures ran.None? <==> forall i | 0 <= i < |registered| :: !search(registered[i].pattern, text)
      ensures ran.Some? ==> exists b: nat :: IsBest(search, registered, text, b) && registered[b] == ran.value
      ensures forall b: nat | IsBest(search, registered, text, b) :: ran == Some(registered[b])
    {
      ran := None;
      var i := 0;
      while i < |routes|
        invariant 0 <= i <= |routes|
        invariant ran == None && FirstMatch(search, routes, text) == FirstMatch(search, routes[i..], text)
      {
        if search(routes[i].pattern, text) {
          ran := Some(routes[i]);
          break;
        }
        assert routes[i..][1..] == routes[i + 1..];
        i := i + 1;
      }
      assert ran == FirstMatch(search, routes, text);
      DispatchIsBest(search, registered, text);
      forall b: nat | IsBest(search, registered, text, b) ensures ran == Some(registered[b]) {
        if ran.Some? {
          var c: nat :| IsBest(search, registered, text, c) && registered[c] == ran.value;
          BestIsUnique(search, registered, text, b, c);
        }
      }
    }
  }
}
