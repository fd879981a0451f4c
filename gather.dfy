/** The shape shared by the core's list-building loops: each item contributes zero or
    more values to an accumulated list, and the first item that raises stops the loop
    with its exception. */
module Collect {
  import opened Wrappers

  /** The values a loop over `items` accumulates, or the exception of the first item
      whose step raises. */
  function Gather<T, U>(items: seq<T>, f: T -> Result<seq<U>>): (r: Result<seq<U>>)
    ensures r.Ok? <==> forall i :: 0 <= i < |items| ==> f(items[i]).Ok?
    ensures r.Ok? ==> forall k :: 0 <= k < |r.value| ==>
      exists i :: 0 <= i < |items| && f(items[i]).Ok? && r.value[k] in f(items[i]).value
  {
    if items == [] then Ok([])
    else
      var init := items[..|items| - 1];
      assert forall i :: 0 <= i < |init| ==> init[i] == items[i];
      var acc :- Gather(init, f);
      var last :- f(items[|items| - 1]);
      assert forall k :: |acc| <= k < |acc + last| ==> (acc + last)[k] in last by {
        forall k | |acc| <= k < |acc + last| ensures (acc + last)[k] in last {
          assert (acc + last)[k] == last[k - |acc|];
        }
      }
      Ok(acc + last)
  }

  /** One more step of the loop. */
  lemma GatherStep<T, U>(items: seq<T>, f: T -> Result<seq<U>>, i: nat, acc: seq<U>)
    requires i < |items| && Gather(items[..i], f) == Ok(acc)
    ensures Gather(items[..i + 1], f) ==
      match f(items[i]) { case Ok(xs) => Ok(acc + xs) case Err(e) => Err(e) }
  {
    assert items[..i + 1][..i] == items[..i];
  }

  /** Once a step has raised, the rest of the items change nothing. */
  lemma {:induction false} GatherStop<T, U>(items: seq<T>, f: T -> Result<seq<U>>, i: nat)
    requires i <= |items| && Gather(items[..i], f).Err?
    ensures Gather(items, f) == Gather(items[..i], f)
    decreases |items| - i
  {
    if i < |items| {
      assert items[..i + 1][..i] == items[..i];
      GatherStop(items, f, i + 1);
    } else {
      assert items[..i] == items;
    }
  }

  /** Items that each contribute themselves give back the list. */
  lemma {:induction false} GatherSelf<T>(items: seq<T>, f: T -> Result<seq<T>>)
    requires forall i :: 0 <= i < |items| ==> f(items[i]) == Ok([items[i]])
    ensures Gather(items, f) == Ok(items)
  {
    if items != [] {
      var init, last := items[..|items| - 1], items[|items| - 1];
      assert items == init + [last];
      assert forall i :: 0 <= i < |init| ==> init[i] == items[i];
      GatherSelf(init, f);
      assert f(last) == Ok([last]);
    }
  }

  /** Every value an item contributes is in the accumulated list. */
  lemma {:induction false} GatherHas<T, U>(items: seq<T>, f: T -> Result<seq<U>>, i: nat)
    requires i < |items| && Gather(items, f).Ok?
    ensures f(items[i]).Ok? && forall x :: x in f(items[i]).value ==> x in Gather(items, f).value
  {
    var init := items[..|items| - 1];
    assert forall j :: 0 <= j < |init| ==> init[j] == items[j];
    if i < |items| - 1 {
      GatherHas(init, f, i);
    }
  }

  /** The items' contributions laid end to end, front to back. */
  function Joined<T, U>(items: seq<T>, f: T -> Result<seq<U>>): seq<U>
    requires forall i :: 0 <= i < |items| ==> f(items[i]).Ok?
  {
    if items == [] then [] else f(items[0]).value + Joined(items[1..], f)
  }

  /** Joining the items is joining all but the last, then the last's contribution. */
  lemma {:induction false} JoinedLast<T, U>(items: seq<T>, f: T -> Result<seq<U>>)
    requires items != [] && forall i :: 0 <= i < |items| ==> f(items[i]).Ok?
    ensures Joined(items, f) == Joined(items[..|items| - 1], f) + f(items[|items| - 1]).value
  {
    var init := items[..|items| - 1];
    if |items| > 1 {
      var tail := items[1..];
      assert tail[..|tail| - 1] == init[1..];
      assert forall i :: 0 <= i < |tail| ==> tail[i] == items[i + 1];
      JoinedLast(tail, f);
    }
  }

  /** A loop that runs to the end accumulates every item's contribution, in order. */
  lemma {:induction false} GatherJoined<T, U>(items: seq<T>, f: T -> Result<seq<U>>)
    requires Gather(items, f).Ok?
    ensures forall i :: 0 <= i < |items| ==> f(items[i]).Ok?
    ensures Gather(items, f).value == Joined(items, f)
  {
    if items != [] {
      var init := items[..|items| - 1];
      assert forall i :: 0 <= i < |init| ==> init[i] == items[i];
      GatherJoined(init, f);
      JoinedLast(items, f);
    }
  }

  /** The values `f` picks out of the items, in order (items it gives nothing for are
      passed over). */
  function Picked<T, U>(items: seq<T>, f: T -> Option<U>): seq<U>
  {
    if items == [] then []
    else
      var rest := Picked(items[..|items| - 1], f);
      match f(items[|items| - 1])
      case Some(x) => rest + [x]
      case None => rest
  }

  /** One item picks what `f` yields for it. */
  lemma PickedOne<T, U>(x: T, f: T -> Option<U>, y: U)
    requires f(x) == Some(y)
    ensures Picked([x], f) == [y]
  {
    assert [x][..0] == [];
  }

  /** A value is picked exactly when some item gives it. */
  lemma {:induction false} PickedIff<T, U>(items: seq<T>, f: T -> Option<U>)
    ensures forall x :: x in Picked(items, f) <==> exists i :: 0 <= i < |items| && f(items[i]) == Some(x)
  {
    if items != [] {
      var init := items[..|items| - 1];
      assert forall i :: 0 <= i < |init| ==> init[i] == items[i];
      PickedIff(init, f);
    }
  }
}
