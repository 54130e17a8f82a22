/** How many CheckItem calls an open checklist takes to leave open: a measure, not just a bound. */
module Progress {
  import opened Domain
  import opened ChecklistSpec
  import opened Finite

  datatype Call = Call(index: int, now: int)

  ghost predicate CallsFit(c: ChecklistState, calls: seq<Call>) {
    forall k :: 0 <= k < |calls| ==> 0 <= calls[k].index < |c.items|
  }

  ghost predicate EveryoneResponsible(c: ChecklistState) {
    forall k :: 0 <= k < |c.items| ==> ResponsibleUserFor(c, c.items[k]).Some?
  }

  /** The item's responsible user, if it has one, checks it. */
  function CheckByResponsible(c: ChecklistState, call: Call): Outcome
    requires 0 <= call.index < |c.items|
  {
    match ResponsibleUserFor(c, c.items[call.index])
    case None => Refused(ErrUnclaimed)
    case Some(u) => CheckItem(c, call.index, u, call.now)
  }

  /** The checklist after all the calls; None once one of them is refused. */
  ghost function CheckRun(c: ChecklistState, calls: seq<Call>): (r: Option<ChecklistState>)
    requires CallsFit(c, calls)
    ensures r.Some? ==> |r.value.items| == |c.items|
  {
    if |calls| == 0 then Some(c)
    else match CheckRun(c, calls[..|calls| - 1])
      case None => None
      case Some(p) => match CheckByResponsible(p, calls[|calls| - 1])
        case Refused(_) => None
        case Done(s, _) => Some(s)
  }

  ghost function Unchecked(c: ChecklistState): set<int> {
    set k | 0 <= k < |c.items| && !c.items[k].checked
  }

  ghost function Touched(calls: seq<Call>): set<int> {
    set k | 0 <= k < |calls| :: calls[k].index
  }

  function Indices(calls: seq<Call>): (r: seq<int>)
    ensures |r| == |calls|
  {
    seq(|calls|, k requires 0 <= k < |calls| => calls[k].index)
  }

  lemma TouchedSize(calls: seq<Call>)
    ensures |Touched(calls)| <= |calls|
    ensures NoDuplicates(Indices(calls)) ==> |Touched(calls)| == |calls|
  {
    var indices := Indices(calls);
    DuplicateFreeByCount(indices);
    forall x
      ensures x in Touched(calls) <==> x in Elements(indices)
    {
      if x in Touched(calls) {
        var k :| 0 <= k < |calls| && calls[k].index == x;
        assert indices[k] == x;
      }
      if x in indices {
        var k :| 0 <= k < |indices| && indices[k] == x;
        assert calls[k].index == x;
      }
    }
    assert Touched(calls) == Elements(indices);
  }

  lemma TouchedOneMore(calls: seq<Call>)
    requires |calls| > 0
    ensures Touched(calls) == Touched(calls[..|calls| - 1]) + {calls[|calls| - 1].index}
  {
  }

  /** The checklist reached agrees with the start, up to the touched items being checked. */
  ghost predicate CheckedSoFar(c: ChecklistState, calls: seq<Call>, s: ChecklistState) {
    && s.head == c.head.(status := s.head.status)
    && |s.items| == |c.items|
    && (forall k :: 0 <= k < |c.items| ==> s.items[k].assigneeOverride == c.items[k].assigneeOverride)
    && Unchecked(s) == Unchecked(c) - Touched(calls)
  }

  /**
   Repeated or not, in any order: while all but the last call leave some unchecked item
   untouched, every call succeeds, and the checklist leaves open with the call that touches
   the last unchecked item.
   */
  lemma {:induction false} CheckRunTracksTouched(c: ChecklistState, calls: seq<Call>)
    requires CallsFit(c, calls) && EveryoneResponsible(c) && c.head.status == Open
    requires |calls| <= 1 || !(Unchecked(c) <= Touched(calls[..|calls| - 1]))
    ensures var r := CheckRun(c, calls);
            && r.Some? && CheckedSoFar(c, calls, r.value)
            && r.value.head.status ==
               if calls == [] || !(Unchecked(c) <= Touched(calls)) then Open
               else if c.head.approverId.Some? then Validating else Complete
  {
    if |calls| == 0 {
    } else {
      var n := |calls| - 1;
      assert forall k :: 0 <= k < n ==> calls[..n][k] == calls[k];
      if n > 1 {
        TouchedOneMore(calls[..n]);
      }
      CheckRunTracksTouched(c, calls[..n]);
      TouchedOneMore(calls);
      CheckOne(c, calls[..n], CheckRun(c, calls[..n]).value, calls[n]);
    }
  }

  lemma CheckOne(c: ChecklistState, calls: seq<Call>, p: ChecklistState, call: Call)
    requires EveryoneResponsible(c) && CheckedSoFar(c, calls, p) && p.head.status == Open
    requires 0 <= call.index < |c.items|
    ensures var o := CheckByResponsible(p, call);
            && o.Done?
            && o.state.head == c.head.(status := o.state.head.status)
            && |o.state.items| == |c.items|
            && (forall k :: 0 <= k < |c.items| ==> o.state.items[k].assigneeOverride == c.items[k].assigneeOverride)
            && Unchecked(o.state) == Unchecked(c) - Touched(calls) - {call.index}
            && (o.state.head.status == Open <==> Unchecked(o.state) != {})
            && (o.state.head.status != Open ==>
                 o.state.head.status == if c.head.approverId.Some? then Validating else Complete)
  {
    var o := CheckByResponsible(p, call);
    assert ResponsibleUserFor(p, p.items[call.index]) == ResponsibleUserFor(c, c.items[call.index]);
    assert Unchecked(o.state) == Unchecked(p) - {call.index};
    if !AllItemsChecked(o.state.items) {
      var k :| 0 <= k < |o.state.items| && !o.state.items[k].checked;
      assert k in Unchecked(o.state);
    }
  }

  ghost function Max1(n: nat): nat {
    if n == 0 then 1 else n
  }

  /**
   Checking the unchecked items once each, in any order (or any one item again when none is
   unchecked), leaves open after exactly max(1, number unchecked) calls and no earlier.
   */
  lemma {:induction false} LeavesOpenExactlyOnTime(c: ChecklistState, calls: seq<Call>)
    requires CallsFit(c, calls) && EveryoneResponsible(c) && c.head.status == Open && |c.items| > 0
    requires |calls| <= Max1(|Unchecked(c)|)
    requires Unchecked(c) != {} ==> NoDuplicates(Indices(calls)) && Touched(calls) <= Unchecked(c)
    ensures CheckRun(c, calls).Some?
    ensures CheckRun(c, calls).value.head.status != Open <==> |calls| == Max1(|Unchecked(c)|)
  {
    TouchedSize(calls);
    var unchecked := Unchecked(c);
    if unchecked != {} {
      SubsetSize(Touched(calls), unchecked);
      if unchecked <= Touched(calls) {
        assert Touched(calls) == unchecked;
      }
      if |calls| > 1 {
        FrontMissesSome(calls, unchecked);
      }
    }
    CheckRunTracksTouched(c, calls);
  }

  lemma FrontMissesSome(calls: seq<Call>, unchecked: set<int>)
    requires |calls| > 1 && |calls| <= |unchecked|
    ensures !(unchecked <= Touched(calls[..|calls| - 1]))
  {
    var front := Touched(calls[..|calls| - 1]);
    TouchedSize(calls[..|calls| - 1]);
    assert |front| < |unchecked|;
    if unchecked <= front {
      SubsetSize(unchecked, front);
    }
  }

  /** Whatever is checked or re-checked, fewer calls than unchecked items never leave open. */
  lemma {:induction false} FewerCallsStayOpen(c: ChecklistState, calls: seq<Call>)
    requires CallsFit(c, calls) && EveryoneResponsible(c) && c.head.status == Open
    requires |calls| < |Unchecked(c)|
    ensures CheckRun(c, calls).Some? && CheckRun(c, calls).value.head.status == Open
  {
    TouchedSize(calls);
    if Unchecked(c) <= Touched(calls) {
      SubsetSize(Unchecked(c), Touched(calls));
    }
    if |calls| > 1 {
      FrontMissesSome(calls, Unchecked(c));
    }
    CheckRunTracksTouched(c, calls);
  }
}
