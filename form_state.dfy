/**
 * The error list of a Drupal form state, as the composite validators of this
 * project use it: an ordered map from element name (`parent][child`) to
 * message, which the validators read, clear and fill again.
 *
 * `setErrorByName` keeps the first error set on a name, and records an error
 * only when `limit_validation_errors` is NULL or one of its sections is a
 * leading part of the name.
 */
module FormState {
  import opened Php

  /** Element name => message, in the order the errors were set. */
  type Errors = seq<(string, string)>

  /** The sections of `limit_validation_errors`; None is NULL (record every error). */
  type Limit = Option<seq<seq<string>>>

  function Names(e: Errors): (r: seq<string>)
    ensures |r| == |e| && forall i :: 0 <= i < |e| ==> r[i] == e[i].0
  {
    if e == [] then [] else [e[0].0] + Names(e[1..])
  }

  /** A PHP array has each key once. */
  predicate UniqueNames(e: Errors)
  {
    forall i, j :: 0 <= i < j < |e| ==> e[i].0 != e[j].0
  }

  /** Whether `setErrorByName` records an error on `name` under `limit`. */
  predicate Recorded(limit: Limit, name: string)
  {
    limit.None? || exists section :: section in limit.value && section <= Explode("][", name)
  }

  /** The errors after `setErrorByName(name, msg)`. */
  function Added(e: Errors, limit: Limit, name: string, msg: string): (r: Errors)
    ensures name in Names(r) <==> name in Names(e) || Recorded(limit, name)
    ensures UniqueNames(e) ==> UniqueNames(r)
    ensures name in Names(e) ==> r == e
  {
    if name in Names(e) || !Recorded(limit, name) then e
    else
      NamesSnoc(e, (name, msg));
      e + [(name, msg)]
  }

  lemma NamesSnoc(e: Errors, x: (string, string))
    ensures Names(e + [x]) == Names(e) + [x.0]
  {
    assert forall i :: 0 <= i < |e| + 1 ==> Names(e + [x])[i] == (Names(e) + [x.0])[i];
  }

  /** The errors after setting each error of `list` in turn. */
  function AddAll(e: Errors, limit: Limit, list: Errors): Errors
  {
    if list == [] then e
    else
      var last := list[|list| - 1];
      Added(AddAll(e, limit, list[..|list| - 1]), limit, last.0, last.1)
  }

  /** The errors of `e` whose name satisfies `keep`, in their order. */
  function Kept(e: Errors, keep: string -> bool): Errors
  {
    if e == [] then []
    else
      var rest := Kept(e[..|e| - 1], keep);
      if keep(e[|e| - 1].0) then rest + [e[|e| - 1]] else rest
  }

  /** The errors of `e` that `keep` keeps and `limit` lets be recorded, in their order. */
  function Refiled(e: Errors, limit: Limit, keep: string -> bool): Errors
  {
    if e == [] then []
    else
      var rest := Refiled(e[..|e| - 1], limit, keep);
      var last := e[|e| - 1];
      if keep(last.0) && Recorded(limit, last.0) then rest + [last] else rest
  }

  // ---------------------------------------------------------------------
  // Properties of the error map

  lemma AddAllSnoc(e: Errors, limit: Limit, list: Errors, x: (string, string))
    ensures AddAll(e, limit, list + [x]) == Added(AddAll(e, limit, list), limit, x.0, x.1)
  {
    assert (list + [x])[..|list|] == list;
  }

  lemma SplitLast<T>(a: seq<T>, b: seq<T>)
    requires b != []
    ensures a + b == (a + b[..|b| - 1]) + [b[|b| - 1]] && b == b[..|b| - 1] + [b[|b| - 1]]
  {
  }

  /** Setting the errors of `a + b` is setting those of `a`, then those of `b`. */
  lemma {:induction false} AddAllAppend(e: Errors, limit: Limit, a: Errors, b: Errors)
    ensures AddAll(e, limit, a + b) == AddAll(AddAll(e, limit, a), limit, b)
  {
    if b == [] {
      assert a + b == a;
    } else {
      var p, last := b[..|b| - 1], b[|b| - 1];
      AddAllAppend(e, limit, a, p);
      SplitLast(a, b);
      AddAllSnoc(e, limit, a + p, last);
      AddAllSnoc(AddAll(e, limit, a), limit, p, last);
    }
  }

  /** Filtering keeps exactly the entries whose name passes the test. */
  lemma {:induction false} KeptMembers(e: Errors, keep: string -> bool, x: (string, string))
    ensures x in Kept(e, keep) <==> x in e && keep(x.0)
  {
    if e != [] {
      KeptMembers(e[..|e| - 1], keep, x);
      assert e == e[..|e| - 1] + [e[|e| - 1]];
    }
  }

  /** Re-filing keeps exactly the entries whose name passes the test and is recorded. */
  lemma {:induction false} RefiledMembers(e: Errors, limit: Limit, keep: string -> bool, x: (string, string))
    ensures x in Refiled(e, limit, keep) <==> x in e && keep(x.0) && Recorded(limit, x.0)
  {
    if e != [] {
      RefiledMembers(e[..|e| - 1], limit, keep, x);
      assert e == e[..|e| - 1] + [e[|e| - 1]];
    }
  }

  /** With NULL limits, re-filing is filtering. */
  lemma {:induction false} RefiledUnlimited(e: Errors, keep: string -> bool)
    ensures Refiled(e, None, keep) == Kept(e, keep)
  {
    if e != [] {
      RefiledUnlimited(e[..|e| - 1], keep);
    }
  }

  lemma {:induction false} RefiledNames(e: Errors, limit: Limit, keep: string -> bool, name: string)
    requires name in Names(Refiled(e, limit, keep))
    ensures name in Names(e)
  {
    var r := Refiled(e, limit, keep);
    var i :| 0 <= i < |r| && r[i].0 == name;
    RefiledMembers(e, limit, keep, r[i]);
    var j :| 0 <= j < |e| && e[j] == r[i];
    assert Names(e)[j] == name;
  }

  /** A name that is not among the errors is not among those re-filed. */
  lemma RefiledFresh(e: Errors, limit: Limit, keep: string -> bool, name: string)
    requires name !in Names(e)
    ensures name !in Names(Refiled(e, limit, keep))
  {
    if name in Names(Refiled(e, limit, keep)) {
      RefiledNames(e, limit, keep, name);
    }
  }

  /** In a list whose names are distinct, the last name does not occur before it. */
  lemma LastNameFresh(e: Errors)
    requires UniqueNames(e) && e != []
    ensures e[|e| - 1].0 !in Names(e[..|e| - 1])
  {
    var p := e[..|e| - 1];
    forall j | 0 <= j < |p| ensures Names(p)[j] != e[|e| - 1].0 {
      assert Names(p)[j] == e[j].0;
    }
  }

  lemma {:induction false} RefiledUnique(e: Errors, limit: Limit, keep: string -> bool)
    requires UniqueNames(e)
    ensures UniqueNames(Refiled(e, limit, keep))
  {
    if e != [] {
      var p := e[..|e| - 1];
      RefiledUnique(p, limit, keep);
      var last := e[|e| - 1];
      LastNameFresh(e);
      RefiledFresh(p, limit, keep, last.0);
      var r := Refiled(p, limit, keep);
      forall i | 0 <= i < |r| ensures r[i].0 != last.0 {
        assert Names(r)[i] == r[i].0;
      }
    }
  }

  /** Filtering a list whose names are distinct keeps them distinct. */
  lemma KeptUnique(e: Errors, keep: string -> bool)
    requires UniqueNames(e)
    ensures UniqueNames(Kept(e, keep))
  {
    RefiledUnlimited(e, keep);
    RefiledUnique(e, None, keep);
  }

  /** With NULL limits, setting a list with distinct names on a cleared form state records all of it, in order. */
  lemma {:induction false} AddAllUnlimited(list: Errors)
    requires UniqueNames(list)
    ensures AddAll([], None, list) == list
  {
    if list != [] {
      var p := list[..|list| - 1];
      assert UniqueNames(p) by {
        forall i, j | 0 <= i < j < |p| ensures p[i].0 != p[j].0 {
          assert p[i] == list[i] && p[j] == list[j];
        }
      }
      AddAllUnlimited(p);
      LastNameFresh(list);
      assert list == p + [list[|list| - 1]];
    }
  }

  /** The errors `setError` calls on one element make, in order. */
  function Named(name: string, msgs: seq<string>): (r: Errors)
    ensures |r| == |msgs| && forall i :: 0 <= i < |msgs| ==> r[i] == (name, msgs[i])
  {
    if msgs == [] then [] else Named(name, msgs[..|msgs| - 1]) + [(name, msgs[|msgs| - 1])]
  }

  lemma NamedSnoc(name: string, msgs: seq<string>, m: string)
    ensures Named(name, msgs + [m]) == Named(name, msgs) + [(name, m)]
  {
    assert (msgs + [m])[..|msgs|] == msgs;
  }

  /** A second error on a name changes nothing. */
  lemma AddedTwice(e: Errors, limit: Limit, name: string, a: string, b: string)
    ensures Added(Added(e, limit, name, a), limit, name, b) == Added(e, limit, name, a)
  {
  }

  /** Of several errors set on one name, only the first is kept. */
  lemma {:induction false} FirstErrorWins(e: Errors, limit: Limit, name: string, msgs: seq<string>)
    ensures AddAll(e, limit, Named(name, msgs)) == if msgs == [] then e else Added(e, limit, name, msgs[0])
  {
    if msgs != [] {
      var p := msgs[..|msgs| - 1];
      NamedSnoc(name, p, msgs[|msgs| - 1]);
      assert p + [msgs[|msgs| - 1]] == msgs;
      AddAllSnoc(e, limit, Named(name, p), (name, msgs[|msgs| - 1]));
      FirstErrorWins(e, limit, name, p);
      if p != [] {
        assert p[0] == msgs[0];
        AddedTwice(e, limit, name, msgs[0], msgs[|msgs| - 1]);
      }
    }
  }

  /** One `setError`. */
  lemma AddAllOne(e: Errors, limit: Limit, name: string, msg: string)
    ensures AddAll(e, limit, Named(name, [msg])) == Added(e, limit, name, msg)
  {
    assert Named(name, [msg]) == [] + [(name, msg)];
  }

  /** Setting the messages of `a`, then those of `b`, on one name. */
  lemma NamedThen(e: Errors, limit: Limit, name: string, a: seq<string>, b: seq<string>)
    ensures AddAll(AddAll(e, limit, Named(name, a)), limit, Named(name, b)) == AddAll(e, limit, Named(name, a + b))
  {
    assert Named(name, a + b) == Named(name, a) + Named(name, b);
    AddAllAppend(e, limit, Named(name, a), Named(name, b));
  }

  /**
   * Setting, one by one on a cleared form state, errors whose names are
   * distinct records exactly those the limit lets through, in order.
   */
  lemma {:induction false} AddAllToEmpty(limit: Limit, list: Errors)
    requires UniqueNames(list)
    ensures AddAll([], limit, list) == Refiled(list, limit, _ => true)
  {
    if list != [] {
      var p := list[..|list| - 1];
      var last := list[|list| - 1];
      assert UniqueNames(p);
      AddAllToEmpty(limit, p);
      LastNameFresh(list);
      RefiledFresh(p, limit, _ => true, last.0);
    }
  }

  /** The members of such a list: the errors of the list whose names the limit lets through. */
  lemma AddAllToEmptyMembers(limit: Limit, list: Errors, x: (string, string))
    requires UniqueNames(list)
    ensures x in AddAll([], limit, list) <==> x in list && Recorded(limit, x.0)
  {
    AddAllToEmpty(limit, list);
    RefiledMembers(list, limit, _ => true, x);
  }

  /**
   * The names filed under an element's parts start with `key]` (the
   * element's own errors are filed under `key`); `strpos($name, $key . ']') !== 0`.
   */
  function NotUnder(key: string): string -> bool
  {
    n => !StartsWith(n, key + "]")
  }

  /**
   * The error map of a form state.  `errors` keeps each name once, as the
   * PHP array it models does.
   */
  class FormStateErrors {
    var errors: Errors
    var limit: Limit

    predicate Valid()
      reads this
    {
      UniqueNames(errors)
    }

    constructor(errors: Errors, limit: Limit)
      requires UniqueNames(errors)
      ensures Valid() && this.errors == errors && this.limit == limit
    {
      this.errors := errors;
      this.limit := limit;
    }

    /** `getErrors`. */
    method GetErrors() returns (e: Errors)
      ensures e == errors
    {
      e := errors;
    }

    /** `clearErrors`. */
    method ClearErrors()
      modifies this
      ensures Valid() && errors == [] && limit == old(limit)
    {
      errors := [];
    }

    /** `setLimitValidationErrors`. */
    method SetLimitValidationErrors(l: Limit)
      modifies this
      ensures errors == old(errors) && limit == l
    {
      limit := l;
    }

    /** `setErrorByName`: the first error set on a name stays. */
    method SetErrorByName(name: string, msg: string)
      requires Valid()
      modifies this
      ensures Valid() && limit == old(limit)
      ensures errors == Added(old(errors), limit, name, msg)
    {
      if name !in Names(errors) && Recorded(limit, name) {
        errors := errors + [(name, msg)];
      }
    }

    /** `foreach ($list as $name => $msg) setErrorByName($name, $msg)`. */
    method SetErrorsByName(list: Errors)
      requires Valid()
      modifies this
      ensures Valid() && limit == old(limit)
      ensures errors == AddAll(old(errors), limit, list)
    {
      var i := 0;
      while i < |list|
        invariant 0 <= i <= |list| && Valid() && limit == old(limit)
        invariant errors == AddAll(old(errors), limit, list[..i])
      {
        assert list[..i + 1][..i] == list[..i];
        SetErrorByName(list[i].0, list[i].1);
        i := i + 1;
      }
      assert list[..i] == list;
    }

    /**
     * The step the composite validators share: take the errors, clear them
     * and set again those whose name `keep` accepts, in their order.
     */
    method Refile(keep: string -> bool)
      requires Valid()
      modifies this
      ensures Valid() && limit == old(limit)
      ensures errors == Refiled(old(errors), limit, keep)
    {
      var formErrors := GetErrors();
      ClearErrors();
      var i := 0;
      while i < |formErrors|
        invariant 0 <= i <= |formErrors| && Valid() && limit == old(limit)
        invariant UniqueNames(formErrors)
        invariant errors == Refiled(formErrors[..i], limit, keep)
      {
        assert formErrors[..i + 1][..i] == formErrors[..i];
        var name := formErrors[i].0;
        if keep(name) {
          assert formErrors[..i + 1][..i] == formErrors[..i] && UniqueNames(formErrors[..i + 1]);
          LastNameFresh(formErrors[..i + 1]);
          RefiledFresh(formErrors[..i], limit, keep, name);
          SetErrorByName(name, formErrors[i].1);
        }
        i := i + 1;
      }
      assert formErrors[..i] == formErrors;
    }
  }

  /**
   * A local copy of the errors with `unset` applied, in a loop, to every
   * name that `keep` rejects.
   */
  method UnsetWhere(e: Errors, keep: string -> bool) returns (r: Errors)
    ensures r == Kept(e, keep)
  {
    r := [];
    var i := 0;
    while i < |e|
      invariant 0 <= i <= |e|
      invariant r == Kept(e[..i], keep)
    {
      assert e[..i + 1][..i] == e[..i];
      if keep(e[i].0) {
        r := r + [e[i]];
      }
      i := i + 1;
    }
    assert e[..i] == e;
  }
}
