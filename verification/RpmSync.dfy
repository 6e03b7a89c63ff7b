/** The loops of _sync_rpm_trans_with_swdb (dnf/util.py), on items updated in place. */
module RpmSync {
  import opened Wrappers
  import opened TransactionItems
  import opened StateSync

  class Item {
    const action: Action
    const nevra: string
    var state: State

    constructor (action: Action, nevra: string)
      ensures this.action == action && this.nevra == nevra && state == Unknown
    {
      this.action, this.nevra, state := action, nevra, Unknown;
    }
  }

  ghost predicate Distinct(items: seq<Item>) {
    forall i, j :: 0 <= i < j < |items| ==> items[i] != items[j]
  }

  /** What the items say now. */
  ghost function Slots(items: seq<Item>): (r: seq<Slot>)
    reads items
    ensures |r| == |items|
    ensures forall i :: 0 <= i < |items| ==> r[i] == Slot(items[i].action, items[i].nevra, items[i].state)
  {
    seq(|items|, i requires 0 <= i < |items| reads items => Slot(items[i].action, items[i].nevra, items[i].state))
  }

  /** The inner loop: the first item not settled yet, with a revert action and this NEVRA. */
  method FindCandidate(items: seq<Item>, nevra: string) returns (r: Option<nat>)
    ensures r == Candidate(Slots(items), nevra, 0)
  {
    var i := 0;
    while i < |items|
      invariant 0 <= i <= |items|
      invariant Candidate(Slots(items), nevra, 0) == Candidate(Slots(items), nevra, i)
    {
      if items[i].state == Unknown && Backward(items[i].action) && items[i].nevra == nevra {
        return Some(i);
      }
      i := i + 1;
    }
    return None;
  }

  lemma AfterPrefix(slots: seq<Slot>, els: seq<Element>, k: nat)
    requires k < |els| && KeysIn(els[k..], |slots|)
    ensures KeyIn(els[k].tag, |slots|) && KeysIn(els[k + 1..], |slots|)
    ensures After(slots, els[k..]) == After(Step(slots, els[k]), els[k + 1..])
    ensures Claims(slots, els[k..]) == [Claim(slots, els[k].tag)] + Claims(Step(slots, els[k]), els[k + 1..])
    ensures Failures(Claims(slots, els[k..]), els[k..]) ==
            (if els[k].failed && Claim(slots, els[k].tag).Some? then 1 else 0)
            + Failures(Claims(Step(slots, els[k]), els[k + 1..]), els[k + 1..])
  {
    assert els[k..][0] == els[k] && els[k..][1..] == els[k + 1..];
    ClaimsCons(slots, els[k..]);
    hide Claim, Step, After;
    assert Claims(slots, els[k..])[1..] == Claims(Step(slots, els[k]), els[k + 1..]);
  }

  /** The loop over the elements; `elNotFound` so far. */
  method SyncElements(items: seq<Item>, els: seq<Element>) returns (elNotFound: bool, error: bool)
    requires Distinct(items) && KeysIn(els, |items|)
    modifies items
    ensures Slots(items) == After(old(Slots(items)), els)
    ensures elNotFound <==> None in Claims(old(Slots(items)), els)
    ensures error <==> Failures(Claims(old(Slots(items)), els), els) > 0
  {
    hide Claim, Step, After, Claims, Failures, Candidate;
    elNotFound, error := false, false;
    var k := 0;
    ghost var first := Slots(items);
    assert els[0..] == els;
    while k < |els|
      invariant 0 <= k <= |els| && KeysIn(els[k..], |items|)
      invariant After(first, els) == After(Slots(items), els[k..])
      invariant None in Claims(first, els) <==> elNotFound || None in Claims(Slots(items), els[k..])
      invariant Failures(Claims(first, els), els) > 0 <==>
                error || Failures(Claims(Slots(items), els[k..]), els[k..]) > 0
    {
      ghost var slots := Slots(items);
      AfterPrefix(slots, els, k);
      var tsi := els[k].tag.key;
      if tsi == None {
        tsi := FindCandidate(items, els[k].tag.nevra);
      }
      ClaimIs(slots, els[k].tag);
      StepIs(slots, els[k]);
      if tsi == None {
        elNotFound := true;
      } else if els[k].failed {
        items[tsi.value].state := Error;
        error := true;
        assert Slots(items) == Step(slots, els[k]);
      } else {
        items[tsi.value].state := Done;
        assert Slots(items) == Step(slots, els[k]);
      }
      k := k + 1;
    }
    Nothing(Slots(items), els[k..]);
  }

  lemma ClaimIs(slots: seq<Slot>, t: Label)
    ensures Claim(slots, t) == if t.key.Some? then t.key else Candidate(slots, t.nevra, 0)
  {
  }

  lemma StepIs(slots: seq<Slot>, el: Element)
    requires KeyIn(el.tag, |slots|)
    ensures Claim(slots, el.tag) == None ==> Step(slots, el) == slots
    ensures Claim(slots, el.tag).Some? ==>
              var i := Claim(slots, el.tag).value;
              i < |slots| && Step(slots, el) == slots[i := slots[i].(state := if el.failed then Error else Done)]
  {
  }

  lemma Nothing(slots: seq<Slot>, els: seq<Element>)
    requires els == []
    ensures After(slots, els) == slots && Claims(slots, els) == [] && Failures([], els) == 0
  {
  }

  /** The whole function: the new states, and whether anything is reported. */
  method SyncRpmTransWithSwdb(els: seq<Element>, items: seq<Item>) returns (elNotFound: bool, error: bool)
    requires Distinct(items) && KeysIn(els, |items|)
    modifies items
    ensures Slots(items) == After(old(Slots(items)), els)
    ensures elNotFound <==> !Complete(old(Slots(items)), els)
    ensures error <==> Failures(Claims(old(Slots(items)), els), els) > 0
  {
    hide Claim, Step, After, Claims, Failures;
    elNotFound, error := SyncElements(items, els);
    var i := 0;
    while i < |items|
      invariant 0 <= i <= |items|
      invariant elNotFound <==>
                None in Claims(old(Slots(items)), els) || exists j :: 0 <= j < i && Slots(items)[j].state == Unknown
    {
      if items[i].state == Unknown {
        elNotFound := true;
        assert Slots(items)[i].state == Unknown;
      }
      i := i + 1;
    }
  }
}
