/** The `products` slice: a reducer over `{items, loading, error}` driven by
    the pending, fulfilled and rejected actions of the `fetchProducts` thunk.
    The HTTP request itself is not modelled; its outcome arrives as the
    action's payload or error message. */
module ProductsSlice {
  import opened Base
  import opened Catalog

  datatype State = State(items: seq<Product>, loading: bool, error: Option<string>)

  /** `initialState`: no products, not loading, no error. */
  const Initial := State([], false, None)

  /** The action types Redux Toolkit derives from "products/fetchProducts". */
  const PendingType := "products/fetchProducts/pending"
  const FulfilledType := "products/fetchProducts/fulfilled"
  const RejectedType := "products/fetchProducts/rejected"

  /** A dispatched action: its type, the payload of a fulfilled fetch and the
      `error.message` of a rejected one. */
  datatype Action = Action(kind: string, payload: seq<Product>, errorMessage: string)

  /** One of the three thunk actions the slice reacts to. */
  predicate IsThunk(a: Action)
  {
    a.kind == PendingType || a.kind == FulfilledType || a.kind == RejectedType
  }

  /** The slice reducer. The slice declares no reducers of its own, so every
      other action leaves the state as it is. */
  function Reduce(s: State, a: Action): (s': State)
    ensures a.kind == PendingType ==> s'.loading && s'.items == s.items && s'.error == s.error
    ensures a.kind == FulfilledType ==> !s'.loading && s'.items == a.payload && s'.error == s.error
    ensures a.kind == RejectedType ==>
              !s'.loading && s'.items == s.items && s'.error == Some(a.errorMessage)
    ensures !IsThunk(a) ==> s' == s
  {
    if a.kind == PendingType then s.(loading := true)
    else if a.kind == FulfilledType then s.(loading := false, items := a.payload)
    else if a.kind == RejectedType then s.(loading := false, error := Some(a.errorMessage))
    else s
  }

  /** Dispatching `actions` one after another, starting from `s`. */
  function ReduceAll(s: State, actions: seq<Action>): State
    decreases |actions|
  {
    if |actions| == 0 then s
    else Reduce(ReduceAll(s, actions[..|actions| - 1]), actions[|actions| - 1])
  }

  /** `actions[i]` is the last action of type `kind`. */
  ghost predicate LastOfKind(actions: seq<Action>, kind: string, i: int)
  {
    0 <= i < |actions| && actions[i].kind == kind
    && forall j :: i < j < |actions| ==> actions[j].kind != kind
  }

  ghost predicate NoneOfKind(actions: seq<Action>, kind: string)
  {
    forall j :: 0 <= j < |actions| ==> actions[j].kind != kind
  }

  /** `actions[i]` is the last of the three thunk actions. */
  ghost predicate LastThunk(actions: seq<Action>, i: int)
  {
    0 <= i < |actions| && IsThunk(actions[i])
    && forall j :: i < j < |actions| ==> !IsThunk(actions[j])
  }

  /** The last action of a kind before the final action is still the last
      of that kind once the final action is dropped. */
  lemma LastOfKindInInit(actions: seq<Action>, kind: string, i: int)
    requires LastOfKind(actions, kind, i) && i < |actions| - 1
    ensures LastOfKind(actions[..|actions| - 1], kind, i)
  {
  }

  /** Whatever was dispatched, the products are the payload of the last
      fulfilled fetch, or unchanged if there was none. */
  lemma {:induction false} ItemsFollowLastFulfilled(s: State, actions: seq<Action>)
    ensures forall i :: LastOfKind(actions, FulfilledType, i) ==> ReduceAll(s, actions).items == actions[i].payload
    ensures NoneOfKind(actions, FulfilledType) ==> ReduceAll(s, actions).items == s.items
    decreases |actions|
  {
    if |actions| > 0 {
      var n := |actions| - 1;
      var init := actions[..n];
      ItemsFollowLastFulfilled(s, init);
      var before := ReduceAll(s, init);
      assert ReduceAll(s, actions) == Reduce(before, actions[n]);
      if actions[n].kind == FulfilledType {
        assert forall i :: LastOfKind(actions, FulfilledType, i) ==> i == n;
      } else {
        assert ReduceAll(s, actions).items == before.items;
        forall i | LastOfKind(actions, FulfilledType, i)
          ensures ReduceAll(s, actions).items == actions[i].payload
        {
          LastOfKindInInit(actions, FulfilledType, i);
        }
        assert NoneOfKind(actions, FulfilledType) ==> NoneOfKind(init, FulfilledType);
      }
    }
  }

  /** Whatever was dispatched, the error is the message of the last rejected
      fetch, or unchanged if there was none: a later success does not clear
      an earlier error. */
  lemma {:induction false} ErrorFollowsLastRejected(s: State, actions: seq<Action>)
    ensures forall i :: LastOfKind(actions, RejectedType, i) ==>
              ReduceAll(s, actions).error == Some(actions[i].errorMessage)
    ensures NoneOfKind(actions, RejectedType) ==> ReduceAll(s, actions).error == s.error
    decreases |actions|
  {
    if |actions| > 0 {
      var n := |actions| - 1;
      var init := actions[..n];
      ErrorFollowsLastRejected(s, init);
      var before := ReduceAll(s, init);
      assert ReduceAll(s, actions) == Reduce(before, actions[n]);
      if actions[n].kind == RejectedType {
        assert forall i :: LastOfKind(actions, RejectedType, i) ==> i == n;
      } else {
        assert ReduceAll(s, actions).error == before.error;
        forall i | LastOfKind(actions, RejectedType, i)
          ensures ReduceAll(s, actions).error == Some(actions[i].errorMessage)
        {
          LastOfKindInInit(actions, RejectedType, i);
        }
        assert NoneOfKind(actions, RejectedType) ==> NoneOfKind(init, RejectedType);
      }
    }
  }

  /** The slice is loading exactly when the last thunk action was `pending`,
      or, if no thunk action was dispatched, when it was loading already. */
  lemma {:induction false} LoadingFollowsLastThunk(s: State, actions: seq<Action>)
    ensures ReduceAll(s, actions).loading <==>
              (exists i :: LastThunk(actions, i) && actions[i].kind == PendingType)
              || (s.loading && NoThunk(actions))
    decreases |actions|
  {
    if |actions| > 0 {
      var n := |actions| - 1;
      var init := actions[..n];
      LoadingFollowsLastThunk(s, init);
      var before := ReduceAll(s, init);
      assert ReduceAll(s, actions) == Reduce(before, actions[n]);
      if IsThunk(actions[n]) {
        LastThunkIsFinal(actions);
      } else {
        LastThunkOfInit(actions);
      }
    }
  }

  /** No thunk action was dispatched. */
  ghost predicate NoThunk(actions: seq<Action>)
  {
    forall j :: 0 <= j < |actions| ==> !IsThunk(actions[j])
  }

  /** When the final action is a thunk action, it is the last one. */
  lemma LastThunkIsFinal(actions: seq<Action>)
    requires |actions| > 0 && IsThunk(actions[|actions| - 1])
    ensures LastThunk(actions, |actions| - 1)
    ensures forall i :: LastThunk(actions, i) ==> i == |actions| - 1
    ensures !NoThunk(actions)
  {
  }

  /** When the final action is not a thunk action, the last thunk action is
      the same with or without it. */
  lemma LastThunkOfInit(actions: seq<Action>)
    requires |actions| > 0 && !IsThunk(actions[|actions| - 1])
    ensures forall i :: LastThunk(actions, i) <==> LastThunk(actions[..|actions| - 1], i)
    ensures NoThunk(actions) <==> NoThunk(actions[..|actions| - 1])
  {
    var init := actions[..|actions| - 1];
    assert forall j :: 0 <= j < |init| ==> init[j] == actions[j];
  }

  /** A fetch that failed, was retried and then succeeded leaves the stale
      error message in place next to the new products. */
  lemma StaleErrorSurvivesRetry(products: seq<Product>, message: string)
    ensures var s := ReduceAll(Initial, [
                      Action(PendingType, [], ""),
                      Action(RejectedType, [], message),
                      Action(PendingType, [], ""),
                      Action(FulfilledType, products, "")]);
            s == State(products, false, Some(message))
  {
    var actions := [
      Action(PendingType, [], ""),
      Action(RejectedType, [], message),
      Action(PendingType, [], ""),
      Action(FulfilledType, products, "")];
    assert actions[..3][..2][..1][..0] == [];
    assert ReduceAll(Initial, actions[..3][..2][..1]) == State([], true, None);
    assert ReduceAll(Initial, actions[..3][..2]) == State([], false, Some(message));
    assert ReduceAll(Initial, actions[..3]) == State([], true, Some(message));
  }
}
