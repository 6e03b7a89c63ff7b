/** Items of a history transaction, and what the rpm transaction set is told about them. */
module TransactionItems {
  import opened Wrappers

  datatype Action =
    | Downgrade | Downgraded | Install | Obsolete | Obsoleted | Reinstall | Reinstalled
    | Remove | Upgrade | Upgraded | ReasonChange

  datatype State = Unknown | Done | Error

  /** `revert_actions` (dnf/util.py). */
  predicate Backward(a: Action) {
    a in {Downgraded, Obsoleted, Remove, Upgraded, Reinstalled}
  }

  /** What state sync sees of an item: its action, its string form, and its state. */
  datatype Slot = Slot(action: Action, nevra: string, state: State)

  /** An element's key is an item of the transaction, by index, or there is none. */
  datatype Label = Label(key: Option<nat>, nevra: string)

  datatype Element = Element(tag: Label, failed: bool)

  function Labels(els: seq<Element>): (r: seq<Label>)
    ensures |r| == |els| && forall k :: 0 <= k < |els| ==> r[k] == els[k].tag
  {
    seq(|els|, k requires 0 <= k < |els| => els[k].tag)
  }

  /** The NEVRAs of the backward items whose state is not known yet. */
  function OpenNevras(items: seq<Slot>): multiset<string> {
    if items == [] then multiset{}
    else (if IsOpen(items[0]) then multiset{items[0].nevra} else multiset{}) + OpenNevras(items[1..])
  }

  predicate IsOpen(s: Slot) {
    s.state == Unknown && Backward(s.action)
  }

  /** The NEVRAs of the elements without a key. */
  function KeylessNevras(labels: seq<Label>): multiset<string> {
    if labels == [] then multiset{}
    else Own(labels[0]) + KeylessNevras(labels[1..])
  }

  function Own(t: Label): multiset<string> {
    if t.key == None then multiset{t.nevra} else multiset{}
  }

  lemma {:induction false} KeylessCount(labels: seq<Label>, n: string)
    ensures KeylessNevras(labels)[n] == multiset(labels)[Label(None, n)]
  {
    hide Own;
    if labels != [] {
      hide KeylessNevras;
      KeylessCount(labels[1..], n);
      Cons(labels);
      KeylessStep(labels, n);
    }
  }

  lemma Cons(labels: seq<Label>)
    requires labels != []
    ensures multiset(labels) == multiset{labels[0]} + multiset(labels[1..])
  {
    assert labels == [labels[0]] + labels[1..];
  }

  lemma KeylessStep(labels: seq<Label>, n: string)
    requires labels != []
    ensures KeylessNevras(labels)[n] ==
            KeylessNevras(labels[1..])[n] + if labels[0] == Label(None, n) then 1 else 0
  {
  }

  /** The order of the elements does not matter. */
  lemma KeylessPermuted(a: seq<Label>, b: seq<Label>)
    requires multiset(a) == multiset(b)
    ensures KeylessNevras(a) == KeylessNevras(b)
  {
    hide KeylessNevras;
    forall n: string
      ensures KeylessNevras(a)[n] == KeylessNevras(b)[n]
    {
      KeylessCount(a, n);
      KeylessCount(b, n);
    }
  }

  /** Closing an item takes its NEVRA out once. */
  lemma {:induction false} OpenUpdate(items: seq<Slot>, i: nat, s: Slot)
    requires i < |items| && s.nevra == items[i].nevra && !IsOpen(s)
    ensures OpenNevras(items[i := s]) + (if IsOpen(items[i]) then multiset{s.nevra} else multiset{}) ==
            OpenNevras(items)
  {
    hide IsOpen;
    if i == 0 {
      assert items[0 := s][1..] == items[1..];
    } else {
      assert items[i := s][1..] == items[1..][i - 1 := s];
      OpenUpdate(items[1..], i - 1, s);
    }
  }

  lemma {:induction false} OpenMember(items: seq<Slot>, n: string)
    ensures n in OpenNevras(items) <==> exists i :: 0 <= i < |items| && IsOpen(items[i]) && items[i].nevra == n
  {
    if items != [] {
      OpenMember(items[1..], n);
      forall i | 0 < i < |items| && IsOpen(items[i]) && items[i].nevra == n
        ensures n in OpenNevras(items)
      {
        assert items[1..][i - 1] == items[i];
      }
    }
  }
}
