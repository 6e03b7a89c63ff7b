/** Matching rpm's elements back to history items: _sync_rpm_trans_with_swdb (dnf/util.py). */
module StateSync {
  import opened Wrappers
  import opened TransactionItems

  /** The first open item with the NEVRA, from index k on. */
  function Candidate(items: seq<Slot>, nevra: string, k: nat): (r: Option<nat>)
    requires k <= |items|
    ensures r.Some? ==> k <= r.value < |items| && IsOpen(items[r.value]) && items[r.value].nevra == nevra
    ensures r.Some? ==> forall i :: k <= i < r.value ==> !(IsOpen(items[i]) && items[i].nevra == nevra)
    ensures r == None ==> forall i :: k <= i < |items| ==> !(IsOpen(items[i]) && items[i].nevra == nevra)
    decreases |items| - k
  {
    if k == |items| then None
    else if IsOpen(items[k]) && items[k].nevra == nevra then Some(k)
    else Candidate(items, nevra, k + 1)
  }

  /** The item that an element is taken to be about. */
  function Claim(items: seq<Slot>, t: Label): Option<nat> {
    if t.key.Some? then t.key else Candidate(items, t.nevra, 0)
  }

  predicate KeyIn(t: Label, n: nat) {
    t.key.Some? ==> t.key.value < n
  }

  predicate KeysIn(els: seq<Element>, n: nat) {
    forall e :: 0 <= e < |els| ==> KeyIn(els[e].tag, n)
  }

  function Outcome(failed: bool): State {
    if failed then Error else Done
  }

  function Step(items: seq<Slot>, el: Element): (r: seq<Slot>)
    requires KeyIn(el.tag, |items|)
    ensures |r| == |items|
  {
    match Claim(items, el.tag)
    case None => items
    case Some(i) => items[i := items[i].(state := Outcome(el.failed))]
  }

  /** The items after the loop over the elements. */
  function After(items: seq<Slot>, els: seq<Element>): (r: seq<Slot>)
    requires KeysIn(els, |items|)
    ensures |r| == |items|
    decreases |els|
  {
    if els == [] then items
    else After(Step(items, els[0]), els[1..])
  }

  /** The item that each element claimed, or None where it is reported as not found. */
  function Claims(items: seq<Slot>, els: seq<Element>): (r: seq<Option<nat>>)
    requires KeysIn(els, |items|)
    ensures |r| == |els|
    ensures forall e :: 0 <= e < |els| && r[e].Some? ==> r[e].value < |items|
    decreases |els|
  {
    if els == [] then []
    else [Claim(items, els[0].tag)] + Claims(Step(items, els[0]), els[1..])
  }

  /** The NEVRAs of the elements that are reported as not found. */
  function LostNevras(claims: seq<Option<nat>>, els: seq<Element>): multiset<string>
    requires |claims| == |els|
  {
    if els == [] then multiset{}
    else (if claims[0] == None then multiset{els[0].tag.nevra} else multiset{}) + LostNevras(claims[1..], els[1..])
  }

  // ----- Claims and states -----

  /** Keys point to forward items only, and no two elements have the same key. */
  predicate WellKeyed(items: seq<Slot>, els: seq<Element>) {
    && KeysIn(els, |items|)
    && (forall e :: 0 <= e < |els| && els[e].tag.key.Some? ==> !Backward(items[els[e].tag.key.value].action))
    && (forall e, f :: 0 <= e < f < |els| && els[e].tag.key.Some? ==> els[e].tag.key != els[f].tag.key)
  }

  lemma StepKeeps(items: seq<Slot>, el: Element)
    requires KeyIn(el.tag, |items|)
    ensures forall i :: 0 <= i < |items| ==>
              && Step(items, el)[i].action == items[i].action
              && Step(items, el)[i].nevra == items[i].nevra
              && (Claim(items, el.tag) == Some(i) ==> Step(items, el)[i].state == Outcome(el.failed))
              && (Claim(items, el.tag) != Some(i) ==> Step(items, el)[i] == items[i])
  {
  }

  lemma WellKeyedTail(items: seq<Slot>, els: seq<Element>)
    requires WellKeyed(items, els) && els != []
    ensures KeyIn(els[0].tag, |items|) && WellKeyed(Step(items, els[0]), els[1..])
  {
    StepKeeps(items, els[0]);
    forall e, f | 0 <= e < f < |els[1..]| && els[1..][e].tag.key.Some?
      ensures els[1..][e].tag.key != els[1..][f].tag.key
    {
      assert els[1..][e] == els[e + 1] && els[1..][f] == els[f + 1];
    }
  }

  /** A backward item whose state is known is not claimed, and a forward item only by its key. */
  lemma {:induction false} ClaimsMeaning(items: seq<Slot>, els: seq<Element>, i: nat)
    requires WellKeyed(items, els) && i < |items|
    ensures Backward(items[i].action) && items[i].state != Unknown ==> Some(i) !in Claims(items, els)
    ensures !Backward(items[i].action) ==>
              forall e :: 0 <= e < |els| ==> (Claims(items, els)[e] == Some(i) <==> els[e].tag.key == Some(i))
    decreases |els|
  {
    hide Candidate;
    if els != [] {
      WellKeyedTail(items, els);
      StepKeeps(items, els[0]);
      ClaimsMeaning(Step(items, els[0]), els[1..], i);
      hide Claims, Step, Claim;
      ClaimsCons(items, els);
    }
  }

  lemma ClaimsCons(items: seq<Slot>, els: seq<Element>)
    requires KeysIn(els, |items|) && els != []
    ensures KeyIn(els[0].tag, |items|) && KeysIn(els[1..], |items|)
    ensures Claims(items, els) == [Claim(items, els[0].tag)] + Claims(Step(items, els[0]), els[1..])
    ensures Claim(items, els[0].tag) == Claims(items, els)[0]
    ensures After(items, els) == After(Step(items, els[0]), els[1..])
    ensures els[0].tag.key == None && Claim(items, els[0].tag).Some? ==>
              IsOpen(items[Claim(items, els[0].tag).value])
    ensures els[0].tag.key.Some? ==> Claim(items, els[0].tag) == els[0].tag.key
  {
  }

  /** No two elements claim the same item. */
  lemma {:induction false} ClaimsInjective(items: seq<Slot>, els: seq<Element>, e: nat, f: nat)
    requires WellKeyed(items, els) && e < f < |els| && Claims(items, els)[e].Some?
    ensures Claims(items, els)[e] != Claims(items, els)[f]
    decreases |els|
  {
    hide Claims, Step, Claim, Candidate;
    WellKeyedTail(items, els);
    ClaimsCons(items, els);
    StepKeeps(items, els[0]);
    var items', tail := Step(items, els[0]), els[1..];
    assert Claims(items, els)[f] == Claims(items', tail)[f - 1];
    if e > 0 {
      assert Claims(items, els)[e] == Claims(items', tail)[e - 1];
      ClaimsInjective(items', tail, e - 1, f - 1);
    } else {
      var i := Claims(items, els)[0].value;
      ClaimsMeaning(items', tail, i);
      assert tail[f - 1] == els[f];
    }
  }

  /** An item's state is the outcome of the element that claimed it, or what it was before. */
  lemma {:induction false} StateMeaning(items: seq<Slot>, els: seq<Element>, i: nat)
    requires WellKeyed(items, els) && i < |items|
    ensures After(items, els)[i].action == items[i].action && After(items, els)[i].nevra == items[i].nevra
    ensures Some(i) !in Claims(items, els) ==> After(items, els)[i].state == items[i].state
    ensures forall e :: 0 <= e < |els| && Claims(items, els)[e] == Some(i) ==>
              After(items, els)[i].state == Outcome(els[e].failed)
    decreases |els|
  {
    hide Claims, Step, Claim, Candidate, After, Outcome;
    if els == [] {
      AfterNothing(items);
    } else {
      WellKeyedTail(items, els);
      ClaimsCons(items, els);
      StepKeeps(items, els[0]);
      var items', tail := Step(items, els[0]), els[1..];
      StateMeaning(items', tail, i);
      assert Claims(items, els)[1..] == Claims(items', tail);
      forall e | 0 <= e < |els| && Claims(items, els)[e] == Some(i)
        ensures After(items, els)[i].state == Outcome(els[e].failed)
      {
        if e == 0 {
          forall f | 0 <= f < |tail|
            ensures Claims(items', tail)[f] != Some(i)
          {
            ClaimsInjective(items, els, 0, f + 1);
            assert Claims(items, els)[f + 1] == Claims(items', tail)[f];
          }
        } else {
          assert Claims(items, els)[e] == Claims(items', tail)[e - 1] && els[e] == tail[e - 1];
        }
      }
    }
  }

  lemma AfterNothing(items: seq<Slot>)
    ensures After(items, []) == items && Claims(items, []) == []
  {
  }

  // ----- Counting -----

  lemma StepOpen(items: seq<Slot>, el: Element)
    requires KeyIn(el.tag, |items|) && (el.tag.key.Some? ==> !Backward(items[el.tag.key.value].action))
    ensures OpenNevras(Step(items, el)) == OpenNevras(items) - Own(el.tag)
    ensures el.tag.key == None ==> (Claim(items, el.tag) == None <==> el.tag.nevra !in OpenNevras(items))
  {
    OpenMember(items, el.tag.nevra);
    match Claim(items, el.tag)
    case None =>
    case Some(i) => OpenUpdate(items, i, items[i].(state := Outcome(el.failed)));
  }

  /**
   The greedy matching is as good as any: NEVRA by NEVRA, the items left over are those in
   excess of the keyless elements, and the elements left over those in excess of the items.
   */
  lemma {:induction false} GreedyCounts(items: seq<Slot>, els: seq<Element>)
    requires WellKeyed(items, els)
    ensures OpenNevras(After(items, els)) == OpenNevras(items) - KeylessNevras(Labels(els))
    ensures LostNevras(Claims(items, els), els) == KeylessNevras(Labels(els)) - OpenNevras(items)
    decreases |els|
  {
    hide Claims, Step, Claim, Candidate, After, OpenNevras;
    if els == [] {
      AfterNothing(items);
    } else {
      WellKeyedTail(items, els);
      ClaimsCons(items, els);
      StepOpen(items, els[0]);
      var items', tail := Step(items, els[0]), els[1..];
      GreedyCounts(items', tail);
      assert Claims(items, els)[1..] == Claims(items', tail);
      assert Labels(els)[1..] == Labels(tail);
      hide KeylessNevras, LostNevras, WellKeyed;
      Counted(OpenNevras(items), KeylessNevras(Labels(tail)), els[0].tag);
    }
  }

  lemma Counted(open: multiset<string>, keyless: multiset<string>, t: Label)
    ensures open - Own(t) - keyless == open - (Own(t) + keyless)
    ensures (if t.key == None && t.nevra !in open then multiset{t.nevra} else multiset{}) + (keyless - (open - Own(t)))
            == (Own(t) + keyless) - open
  {
  }

  // ----- The result -----

  /** Nothing is reported: no element is not found, and no item is left unknown. */
  predicate Complete(items: seq<Slot>, els: seq<Element>)
    requires KeysIn(els, |items|)
  {
    && None !in Claims(items, els)
    && forall i :: 0 <= i < |items| ==> After(items, els)[i].state != Unknown
  }

  /** Every forward item of unknown state is some element's key. */
  predicate ForwardKeyed(items: seq<Slot>, els: seq<Element>) {
    forall i :: 0 <= i < |items| && items[i].state == Unknown && !Backward(items[i].action) ==>
      exists e :: 0 <= e < |els| && els[e].tag.key == Some(i)
  }

  lemma {:induction false} NoneLost(claims: seq<Option<nat>>, els: seq<Element>)
    requires |claims| == |els|
    ensures LostNevras(claims, els) == multiset{} <==> None !in claims
  {
    if els != [] {
      NoneLost(claims[1..], els[1..]);
      assert claims == [claims[0]] + claims[1..];
      if claims[0] == None {
        assert els[0].tag.nevra in LostNevras(claims, els);
      }
    }
  }

  lemma NoneOpen(items: seq<Slot>)
    ensures OpenNevras(items) == multiset{} <==> forall i :: 0 <= i < |items| ==> !IsOpen(items[i])
  {
    if n :| n in OpenNevras(items) {
      OpenMember(items, n);
    } else {
      assert OpenNevras(items) == multiset{};
      forall i | 0 <= i < |items|
        ensures !IsOpen(items[i])
      {
        OpenMember(items, items[i].nevra);
      }
    }
  }

  /**
   Completeness: nothing is reported exactly when the keyless elements and the open backward
   items agree NEVRA by NEVRA, and every forward item is some element's key.
   */
  lemma Completeness(items: seq<Slot>, els: seq<Element>)
    requires WellKeyed(items, els)
    ensures Complete(items, els) <==>
            OpenNevras(items) == KeylessNevras(Labels(els)) && ForwardKeyed(items, els)
  {
    hide Claims, After, OpenNevras, KeylessNevras, LostNevras;
    GreedyCounts(items, els);
    NoneLost(Claims(items, els), els);
    NoneOpen(After(items, els));
    Differences(OpenNevras(items), KeylessNevras(Labels(els)));
    forall i | 0 <= i < |items| && !Backward(items[i].action)
      ensures After(items, els)[i].state != Unknown <==>
              items[i].state != Unknown || exists e :: 0 <= e < |els| && els[e].tag.key == Some(i)
    {
      ForwardState(items, els, i);
    }
    forall i | 0 <= i < |items|
      ensures After(items, els)[i].action == items[i].action
    {
      StateMeaning(items, els, i);
    }
  }

  lemma ForwardState(items: seq<Slot>, els: seq<Element>, i: nat)
    requires WellKeyed(items, els) && i < |items| && !Backward(items[i].action)
    ensures After(items, els)[i].state != Unknown <==>
            items[i].state != Unknown || exists e :: 0 <= e < |els| && els[e].tag.key == Some(i)
  {
    hide Claims, After;
    StateMeaning(items, els, i);
    ClaimsMeaning(items, els, i);
    if e :| 0 <= e < |els| && els[e].tag.key == Some(i) {
      assert Claims(items, els)[e] == Some(i);
    }
  }

  lemma Differences(a: multiset<string>, b: multiset<string>)
    ensures a - b == multiset{} && b - a == multiset{} <==> a == b
  {
    forall n: string | a[n] != b[n]
      ensures (a - b)[n] > 0 || (b - a)[n] > 0
    {
    }
  }

  function Errors(items: seq<Slot>): nat {
    if items == [] then 0 else (if items[0].state == Error then 1 else 0) + Errors(items[1..])
  }

  function Failures(claims: seq<Option<nat>>, els: seq<Element>): nat
    requires |claims| == |els|
  {
    if els == [] then 0
    else (if els[0].failed && claims[0].Some? then 1 else 0) + Failures(claims[1..], els[1..])
  }

  lemma {:induction false} ErrorsUpdate(items: seq<Slot>, i: nat, s: Slot)
    requires i < |items|
    ensures Errors(items[i := s]) ==
            Errors(items) - (if items[i].state == Error then 1 else 0) + if s.state == Error then 1 else 0
  {
    if i == 0 {
      assert items[0 := s][1..] == items[1..];
    } else {
      assert items[i := s][1..] == items[1..][i - 1 := s];
      ErrorsUpdate(items[1..], i - 1, s);
    }
  }

  predicate KeysUnknown(items: seq<Slot>, els: seq<Element>)
    requires KeysIn(els, |items|)
  {
    forall e :: 0 <= e < |els| && els[e].tag.key.Some? ==> items[els[e].tag.key.value].state == Unknown
  }

  lemma StepErrors(items: seq<Slot>, el: Element)
    requires KeyIn(el.tag, |items|)
    requires el.tag.key.Some? ==> items[el.tag.key.value].state == Unknown
    ensures Errors(Step(items, el)) == Errors(items) + if el.failed && Claim(items, el.tag).Some? then 1 else 0
  {
    match Claim(items, el.tag)
    case None =>
    case Some(i) => ErrorsUpdate(items, i, items[i].(state := Outcome(el.failed)));
  }

  /** As many items become errors as elements failed that were found. */
  lemma {:induction false} ErrorsAreFailures(items: seq<Slot>, els: seq<Element>)
    requires WellKeyed(items, els) && KeysUnknown(items, els)
    ensures Errors(After(items, els)) == Errors(items) + Failures(Claims(items, els), els)
    decreases |els|
  {
    hide Claims, Step, Claim, Candidate, After, Errors;
    if els == [] {
      AfterNothing(items);
    } else {
      WellKeyedTail(items, els);
      ClaimsCons(items, els);
      StepErrors(items, els[0]);
      StepKeeps(items, els[0]);
      var items', tail := Step(items, els[0]), els[1..];
      forall e | 0 <= e < |tail| && tail[e].tag.key.Some?
        ensures items'[tail[e].tag.key.value].state == Unknown
      {
        assert tail[e] == els[e + 1] && els[e + 1].tag.key != els[0].tag.key;
      }
      ErrorsAreFailures(items', tail);
      assert Claims(items, els)[1..] == Claims(items', tail);
    }
  }
}
