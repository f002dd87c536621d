/**
 * Whether a webform element is visible once the conditions on every
 * container above it are taken into account.
 *
 * The webform conditions validator, with the submission built from the form
 * state, is the parameter `isVisible`: it answers for one element array.
 */
module WebformHelper {
  import opened Php

  /** The containers met walking `parents` down from `container`, in order. */
  function Containers(container: Value, parents: seq<Key>): (r: seq<Value>)
    ensures |r| == |parents|
    decreases parents
  {
    if parents == [] then [] else [Index(container, parents[0])] + Containers(Index(container, parents[0]), parents[1..])
  }

  /**
   * The walk as the helper performs it: descend one parent at a time, stop
   * at the first invisible container, else ask about the element itself.
   */
  predicate VisibleFrom(container: Value, parents: seq<Key>, element: Value, isVisible: Value -> bool)
    decreases parents
  {
    if parents == [] then isVisible(element)
    else
      var next := Index(container, parents[0]);
      isVisible(next) && VisibleFrom(next, parents[1..], element, isVisible)
  }

  /** Every value of `cs` is visible. */
  predicate AllVisible(cs: seq<Value>, isVisible: Value -> bool)
  {
    cs == [] || (isVisible(cs[0]) && AllVisible(cs[1..], isVisible))
  }

  lemma {:induction false} AllVisibleIff(cs: seq<Value>, isVisible: Value -> bool)
    ensures AllVisible(cs, isVisible) <==> forall i :: 0 <= i < |cs| ==> isVisible(cs[i])
  {
    if cs != [] {
      AllVisibleIff(cs[1..], isVisible);
      assert forall i :: 1 <= i < |cs| ==> cs[i] == cs[1..][i - 1];
    }
  }

  lemma {:induction false} VisibleFromContainers(container: Value, parents: seq<Key>, element: Value, isVisible: Value -> bool)
    ensures VisibleFrom(container, parents, element, isVisible)
      <==> AllVisible(Containers(container, parents), isVisible) && isVisible(element)
    decreases parents
  {
    if parents != [] {
      var next := Index(container, parents[0]);
      VisibleFromContainers(next, parents[1..], element, isVisible);
      assert Containers(container, parents)[1..] == Containers(next, parents[1..]);
    }
  }

  /**
   * The element is visible through its parents exactly when every container
   * on its path and the element itself are visible.
   */
  lemma VisibleFromIff(container: Value, parents: seq<Key>, element: Value, isVisible: Value -> bool)
    ensures VisibleFrom(container, parents, element, isVisible)
      <==> (forall i :: 0 <= i < |parents| ==> isVisible(Containers(container, parents)[i])) && isVisible(element)
  {
    VisibleFromContainers(container, parents, element, isVisible);
    AllVisibleIff(Containers(container, parents), isVisible);
  }

  /**
   * `isElementVisibleThroughParent` (the same code in WebformHelper and in
   * BHCCWebformHelper): `elements` is `complete_form['elements']`, `parents`
   * the element's `#webform_parents`.  `asked` is how many containers were
   * put to the conditions validator before the answer was known.
   */
  method IsElementVisibleThroughParent(element: Value, parents: seq<Key>, elements: Value, isVisible: Value -> bool)
    returns (visible: bool, asked: nat)
    ensures visible == VisibleFrom(elements, parents, element, isVisible)
    ensures asked <= |parents|
    ensures forall i :: 0 <= i < asked - 1 ==> isVisible(Containers(elements, parents)[i])
    ensures asked < |parents| ==> 0 < asked && !isVisible(Containers(elements, parents)[asked - 1]) && !visible
  {
    var parentContainer := elements;
    var i := 0;
    while i < |parents|
      invariant 0 <= i <= |parents|
      invariant parents[i..] == [] || Containers(parentContainer, parents[i..])[0] == Containers(elements, parents)[i]
      invariant VisibleFrom(elements, parents, element, isVisible) == VisibleFrom(parentContainer, parents[i..], element, isVisible)
      invariant forall j :: 0 <= j < i ==> isVisible(Containers(elements, parents)[j])
      invariant Containers(parentContainer, parents[i..]) == Containers(elements, parents)[i..]
    {
      parentContainer := Index(parentContainer, parents[i]);
      assert parents[i..][1..] == parents[i + 1..];
      if !isVisible(parentContainer) {
        return false, i + 1;
      }
      i := i + 1;
    }
    visible := isVisible(element);
    asked := |parents|;
  }
}
