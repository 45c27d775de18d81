/** Priority conflict detection: `validatePriorities` runs
    `_.difference(events, _.uniqWith(events, comparator))` for two
    comparators and reports the first event left over. */
module Priorities {
  import opened Results
  import opened JsValue
  import opened AlbTypes

  /** The two comparators, checked in this order. */
  datatype Rule =
    | SameFunctionOtherListener   // the Serverless limitation
    | SameListenerOtherFunction   // the ALB conflict

  /** `comparator(e1, e2)`; symmetric, but not transitive. */
  predicate Clash(rule: Rule, e1: AlbEvent, e2: AlbEvent) {
    && e1.priority == e2.priority
    && match rule
       case SameFunctionOtherListener => e1.listenerId != e2.listenerId && e1.functionName == e2.functionName
       case SameListenerOtherFunction => e1.listenerId == e2.listenerId && e1.functionName != e2.functionName
  }

  /** `_.uniqWith` keeps event `j` when it clashes with none of the events it
      kept before it. */
  predicate Kept(events: seq<AlbEvent>, rule: Rule, j: nat)
    requires j < |events|
    decreases j
  {
    forall i :: 0 <= i < j ==> !(Kept(events, rule, i) && Clash(rule, events[j], events[i]))
  }

  /** The indices, below `n`, of the events `_.difference` leaves over: those
      not kept, in list order. */
  function Duplicates(events: seq<AlbEvent>, rule: Rule, n: nat): (d: seq<nat>)
    requires n <= |events|
    ensures forall x :: 0 <= x < |d| ==> d[x] < n
  {
    if n == 0 then []
    else Duplicates(events, rule, n - 1) + (if Kept(events, rule, n - 1) then [] else [n - 1])
  }

  /** Some pair of events satisfies the comparator. */
  predicate HasClash(events: seq<AlbEvent>, rule: Rule) {
    exists i, j :: 0 <= i < j < |events| && Clash(rule, events[i], events[j])
  }

  /** Event `j` is the first, in list order, that clashes with an earlier one. */
  predicate IsFirstClash(events: seq<AlbEvent>, rule: Rule, j: nat) {
    && j < |events|
    && (exists i :: 0 <= i < j && Clash(rule, events[i], events[j]))
    && (forall i, k :: 0 <= i < k < j ==> !Clash(rule, events[i], events[k]))
  }

  /** The indices, below `n`, of the events `_.uniqWith` keeps, in list order. */
  function KeptIndices(events: seq<AlbEvent>, rule: Rule, n: nat): (k: seq<nat>)
    requires n <= |events|
    ensures forall x :: 0 <= x < |k| ==> k[x] < n
  {
    if n == 0 then []
    else KeptIndices(events, rule, n - 1) + (if Kept(events, rule, n - 1) then [n - 1] else [])
  }

  lemma {:induction false} KeptIndicesMembers(events: seq<AlbEvent>, rule: Rule, n: nat, i: nat)
    requires n <= |events|
    ensures i in KeptIndices(events, rule, n) <==> i < n && Kept(events, rule, i)
  {
    if n > 0 {
      KeptIndicesMembers(events, rule, n - 1, i);
    }
  }

  /** Event `j` is kept exactly when it clashes with none of the events kept before it. */
  lemma KeptAgainst(events: seq<AlbEvent>, rule: Rule, j: nat)
    requires j < |events|
    ensures Kept(events, rule, j)
            <==> forall x :: 0 <= x < |KeptIndices(events, rule, j)| ==>
                   !Clash(rule, events[j], events[KeptIndices(events, rule, j)[x]])
  {
    var kept := KeptIndices(events, rule, j);
    if Kept(events, rule, j) {
      forall x | 0 <= x < |kept| ensures !Clash(rule, events[j], events[kept[x]]) {
        KeptIndicesMembers(events, rule, j, kept[x]);
      }
    } else {
      var i :| 0 <= i < j && Kept(events, rule, i) && Clash(rule, events[j], events[i]);
      KeptIndicesMembers(events, rule, j, i);
      var x :| 0 <= x < |kept| && kept[x] == i;
    }
  }

  /** `_.difference(events, _.uniqWith(events, comparator))`, as the indices
      of the events left over: keep an event unless it matches an already kept
      one, else record it as a duplicate. */
  method UniqWithDuplicates(events: seq<AlbEvent>, rule: Rule) returns (duplicates: seq<nat>)
    ensures duplicates == Duplicates(events, rule, |events|)
  {
    var kept: seq<nat> := [];
    duplicates := [];
    for j := 0 to |events|
      invariant kept == KeptIndices(events, rule, j)
      invariant duplicates == Duplicates(events, rule, j)
    {
      KeptAgainst(events, rule, j);
      if exists x :: 0 <= x < |kept| && Clash(rule, events[j], events[kept[x]]) {
        duplicates := duplicates + [j];
      } else {
        kept := kept + [j];
      }
    }
  }

  lemma {:induction false} DuplicatesMembers(events: seq<AlbEvent>, rule: Rule, n: nat, x: nat)
    requires n <= |events|
    ensures x in Duplicates(events, rule, n) <==> x < n && !Kept(events, rule, x)
  {
    if n > 0 {
      DuplicatesMembers(events, rule, n - 1, x);
    }
  }

  /** The first duplicate is not kept, and every event before it is. */
  lemma {:induction false} DuplicatesFirst(events: seq<AlbEvent>, rule: Rule, n: nat)
    requires n <= |events| && Duplicates(events, rule, n) != []
    ensures !Kept(events, rule, Duplicates(events, rule, n)[0])
    ensures forall x :: 0 <= x < Duplicates(events, rule, n)[0] ==> Kept(events, rule, x)
  {
    var prev := Duplicates(events, rule, n - 1);
    if prev != [] {
      DuplicatesFirst(events, rule, n - 1);
    } else {
      forall x | 0 <= x < n - 1 ensures Kept(events, rule, x) {
        DuplicatesMembers(events, rule, n - 1, x);
      }
    }
  }

  /** `duplicates.length > 0` holds exactly when some pair satisfies the comparator. */
  lemma DuplicatesIffClash(events: seq<AlbEvent>, rule: Rule)
    ensures Duplicates(events, rule, |events|) != [] <==> HasClash(events, rule)
  {
    var n := |events|;
    if Duplicates(events, rule, n) != [] {
      var j := Duplicates(events, rule, n)[0];
      DuplicatesFirst(events, rule, n);
      var i :| 0 <= i < j && Kept(events, rule, i) && Clash(rule, events[j], events[i]);
      assert Clash(rule, events[i], events[j]);
    }
    if HasClash(events, rule) {
      var i, j :| 0 <= i < j < n && Clash(rule, events[i], events[j]);
      if Kept(events, rule, i) {
        assert Clash(rule, events[j], events[i]);
        assert !Kept(events, rule, j);
        DuplicatesMembers(events, rule, n, j);
      } else {
        DuplicatesMembers(events, rule, n, i);
      }
    }
  }

  /** The event reported is the first one, in list order, that clashes with an earlier one. */
  lemma FirstDuplicateIsFirstClash(events: seq<AlbEvent>, rule: Rule)
    requires Duplicates(events, rule, |events|) != []
    ensures IsFirstClash(events, rule, Duplicates(events, rule, |events|)[0])
  {
    var n := |events|;
    var d := Duplicates(events, rule, n)[0];
    DuplicatesFirst(events, rule, n);
    var i :| 0 <= i < d && Kept(events, rule, i) && Clash(rule, events[d], events[i]);
    assert Clash(rule, events[i], events[d]);
    forall i', k | 0 <= i' < k < d ensures !Clash(rule, events[i'], events[k]) {
      assert Kept(events, rule, k) && Kept(events, rule, i');
    }
  }

  /** The first clash is unique. */
  lemma FirstClashUnique(events: seq<AlbEvent>, rule: Rule, j: nat, j': nat)
    requires IsFirstClash(events, rule, j) && IsFirstClash(events, rule, j')
    ensures j == j'
  {
  }

  /** What `validatePriorities` decides: the Serverless-limitation error when
      rule 1 leaves a duplicate, else the ALB-conflict error when rule 2 does,
      each naming the function and priority of the first duplicate. */
  function PriorityCheck(events: seq<AlbEvent>): Outcome<()>
  {
    var d1 := Duplicates(events, SameFunctionOtherListener, |events|);
    if d1 != [] then Err(PriorityLimitation(events[d1[0]].functionName, events[d1[0]].priority))
    else
      var d2 := Duplicates(events, SameListenerOtherFunction, |events|);
      if d2 != [] then Err(PriorityInUse(events[d2[0]].functionName, events[d2[0]].priority))
      else Ok(())
  }

  /** `validatePriorities` */
  method ValidatePriorities(events: seq<AlbEvent>) returns (r: Outcome<()>)
    ensures r == PriorityCheck(events)
  {
    var duplicates := UniqWithDuplicates(events, SameFunctionOtherListener);
    if |duplicates| > 0 {
      return Err(PriorityLimitation(events[duplicates[0]].functionName, events[duplicates[0]].priority));
    }
    duplicates := UniqWithDuplicates(events, SameListenerOtherFunction);
    if |duplicates| > 0 {
      return Err(PriorityInUse(events[duplicates[0]].functionName, events[duplicates[0]].priority));
    }
    return Ok(());
  }

  /** Rule 1 fails exactly when two events share priority and function but
      not listener, reporting the first such event; rule 2 is consulted only
      after that, and fails exactly when two events share priority and
      listener but not function. */
  lemma PriorityCheckOutcome(events: seq<AlbEvent>)
    ensures PriorityCheck(events).Ok?
            <==> !HasClash(events, SameFunctionOtherListener) && !HasClash(events, SameListenerOtherFunction)
    ensures PriorityCheck(events).Err? && PriorityCheck(events).error.PriorityLimitation?
            <==> HasClash(events, SameFunctionOtherListener)
    ensures PriorityCheck(events).Err? && PriorityCheck(events).error.PriorityInUse?
            <==> !HasClash(events, SameFunctionOtherListener) && HasClash(events, SameListenerOtherFunction)
  {
    DuplicatesIffClash(events, SameFunctionOtherListener);
    DuplicatesIffClash(events, SameListenerOtherFunction);
  }

  /** The error names the function and priority of the first clashing event
      under the rule that failed. */
  lemma PriorityCheckReports(events: seq<AlbEvent>)
    requires PriorityCheck(events).Err?
    ensures exists j: nat :: && IsFirstClash(events, if PriorityCheck(events).error.PriorityLimitation?
                                                  then SameFunctionOtherListener else SameListenerOtherFunction, j)
                        && PriorityCheck(events).error.functionName == events[j].functionName
                        && PriorityCheck(events).error.priority == events[j].priority
  {
    if Duplicates(events, SameFunctionOtherListener, |events|) != [] {
      FirstDuplicateIsFirstClash(events, SameFunctionOtherListener);
    } else {
      FirstDuplicateIsFirstClash(events, SameListenerOtherFunction);
    }
  }

  /** Events that agree in priority, listener and function never trigger
      either check: a list whose equal-priority events are all such exact
      duplicates passes. */
  lemma ExactDuplicatesPass(events: seq<AlbEvent>)
    requires forall i, j :: 0 <= i < j < |events| && events[i].priority == events[j].priority
               ==> events[i].listenerId == events[j].listenerId && events[i].functionName == events[j].functionName
    ensures PriorityCheck(events) == Ok(())
  {
    PriorityCheckOutcome(events);
  }
}
