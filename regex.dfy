/**
 * The regular expressions of this project are all of one shape: a sequence
 * of character classes, each with a repetition range (`[A-Z]{1,2}`, `\d`,
 * ` ?`, `[a-z0-9_+.-]+`).  This module models PCRE's matching of such a
 * pattern at a given position: greedy quantifiers with backtracking, tried
 * in PCRE's order, and the end rules of an unanchored pattern and of `$`.
 *
 * A match is described by the repetition count chosen for every item.
 * `Match` is proved to return a valid choice (`MatchSound`), to find one
 * whenever one exists, and to return the lexicographically greatest one,
 * which is the one a backtracking matcher that tries longer repetitions
 * first reaches first (`MatchComplete`).
 */
module Regex {
  import opened Php

  /** A character class, given by its membership test. */
  datatype CharClass = Class(has: char -> bool)

  /** `.` without the s modifier: any byte but "\n". */
  const NotNewline: CharClass := Class(c => c != '\n')
  /** `[A-Z]` under the `i` modifier. */
  const Letter: CharClass := Class(c => IsLetter(c))
  /** `\d`. */
  const Digit: CharClass := Class(c => IsDigit(c))
  /** `[A-Z\d]` under the `i` modifier. */
  const LetterOrDigit: CharClass := Class(c => IsLetter(c) || IsDigit(c))
  const Space: CharClass := Class(c => c == ' ')

  function In(cls: CharClass, c: char): bool
  {
    cls.has(c)
  }

  /** A class with a repetition range; `max == None` is unbounded. */
  datatype Item = Item(cls: CharClass, min: nat, max: Option<nat>)

  type Pattern = seq<Item>

  /**
   * `[A-Z]{1,2}\d[A-Z\d]? ?\d[A-Z]{2}`, matched case-insensitively: the
   * simple UK postcode pattern, searched for in free text by the redaction
   * and anchored with `^` and `$` by the Ordnance Survey geocoder.
   */
  const PostcodePattern: Pattern := [
    Item(Letter, 1, Some(2)), Item(Digit, 1, Some(1)), Item(LetterOrDigit, 0, Some(1)),
    Item(Space, 0, Some(1)), Item(Digit, 1, Some(1)), Item(Letter, 2, Some(2))]

  /** Where a match may end: anywhere, or where `$` (without the D modifier) holds. */
  datatype EndRule = Anywhere | Dollar

  predicate EndOk(s: string, pos: nat, e: EndRule)
    requires pos <= |s|
  {
    e == Anywhere || pos == |s| || (pos == |s| - 1 && s[pos] == '\n')
  }

  predicate WithinMax(it: Item, c: nat)
  {
    it.max.None? || c <= it.max.value
  }

  /** `c` characters from `pos` are all in the item's class. */
  predicate RunOf(cls: CharClass, s: string, pos: nat, c: nat)
  {
    pos + c <= |s| && forall j :: pos <= j < pos + c ==> In(cls, s[j])
  }

  /**
   * The declarative reading of a match: `cs` gives each item a repetition
   * count within its range, each repetition consumes a character of the
   * item's class, and the end rule holds where the last item stops.
   */
  predicate Fits(p: Pattern, s: string, pos: nat, e: EndRule, cs: seq<nat>)
    requires pos <= |s|
    decreases |p|
  {
    |cs| == |p| &&
    if p == [] then EndOk(s, pos, e)
    else
      p[0].min <= cs[0] && WithinMax(p[0], cs[0]) && RunOf(p[0].cls, s, pos, cs[0])
      && Fits(p[1..], s, pos + cs[0], e, cs[1..])
  }

  /** The length of the run of class characters starting at `pos`. */
  function Run(cls: CharClass, s: string, pos: nat): (n: nat)
    requires pos <= |s|
    ensures RunOf(cls, s, pos, n)
    ensures pos + n < |s| ==> !In(cls, s[pos + n])
    decreases |s| - pos
  {
    if pos < |s| && In(cls, s[pos]) then 1 + Run(cls, s, pos + 1) else 0
  }

  /** The most repetitions the item can take at `pos`. */
  function Avail(it: Item, s: string, pos: nat): nat
    requires pos <= |s|
  {
    var n := Run(it.cls, s, pos);
    if it.max.Some? && it.max.value < n then it.max.value else n
  }

  lemma AvailBound(it: Item, s: string, pos: nat, c: nat)
    requires pos <= |s|
    ensures c <= Avail(it, s, pos) <==> WithinMax(it, c) && RunOf(it.cls, s, pos, c)
  {
    var n := Run(it.cls, s, pos);
    if c > n && pos + c <= |s| {
      assert !In(it.cls, s[pos + n]);
    }
  }

  /** PCRE's matching at `pos`: the repetition counts of the match found, if any. */
  function Match(p: Pattern, s: string, pos: nat, e: EndRule): Option<seq<nat>>
    requires pos <= |s|
    decreases |p|, 1, 0
  {
    if p == [] then (if EndOk(s, pos, e) then Some([]) else None)
    else
      var a := Avail(p[0], s, pos);
      if a < p[0].min then None else Try(p, s, pos, e, a)
  }

  /** Backtracking over the first item: `c` repetitions, then fewer, down to the minimum. */
  function Try(p: Pattern, s: string, pos: nat, e: EndRule, c: nat): Option<seq<nat>>
    requires pos <= |s| && p != [] && p[0].min <= c <= Avail(p[0], s, pos)
    decreases |p|, 0, c
  {
    AvailBound(p[0], s, pos, c);
    match Match(p[1..], s, pos + c, e)
    case Some(rest) => Some([c] + rest)
    case None => if c == p[0].min then None else Try(p, s, pos, e, c - 1)
  }

  /** A fit of `[it] + p`: a fitting count for `it`, then a fit of `p` where it stops. */
  lemma FitsCons(it: Item, p: Pattern, s: string, pos: nat, e: EndRule, c: nat, cs: seq<nat>)
    requires pos <= |s| && it.min <= c && WithinMax(it, c) && RunOf(it.cls, s, pos, c)
    requires Fits(p, s, pos + c, e, cs)
    ensures Fits([it] + p, s, pos, e, [c] + cs)
  {
    assert ([it] + p)[1..] == p && ([c] + cs)[1..] == cs;
  }

  lemma FitsUncons(it: Item, p: Pattern, s: string, pos: nat, e: EndRule, cs: seq<nat>)
    requires pos <= |s| && Fits([it] + p, s, pos, e, cs)
    ensures |cs| == |p| + 1 && it.min <= cs[0] && WithinMax(it, cs[0]) && RunOf(it.cls, s, pos, cs[0])
    ensures Fits(p, s, pos + cs[0], e, cs[1..])
  {
    assert ([it] + p)[1..] == p;
  }

  /** One step of a match that succeeds with the greediest count for the first item. */
  lemma MatchGreedyStep(p: Pattern, s: string, pos: nat, e: EndRule, rest: seq<nat>)
    requires pos <= |s| && p != []
    requires p[0].min <= Avail(p[0], s, pos) <= |s| - pos
    requires Match(p[1..], s, pos + Avail(p[0], s, pos), e) == Some(rest)
    ensures Match(p, s, pos, e) == Some([Avail(p[0], s, pos)] + rest)
  {
  }

  /** `MatchGreedyStep` for the suffix of the pattern that starts at item `k`. */
  lemma MatchGreedyAt(p: Pattern, k: nat, s: string, pos: nat, e: EndRule, rest: seq<nat>)
    requires pos <= |s| && k < |p|
    requires p[k].min <= Avail(p[k], s, pos) <= |s| - pos
    requires Match(p[k + 1..], s, pos + Avail(p[k], s, pos), e) == Some(rest)
    ensures Match(p[k..], s, pos, e) == Some([Avail(p[k], s, pos)] + rest)
  {
    assert p[k..][0] == p[k] && p[k..][1..] == p[k + 1..];
    MatchGreedyStep(p[k..], s, pos, e, rest);
  }

  /** The run at `pos` is exactly `n` long when `n` class characters are followed by a non-member or the end. */
  lemma {:induction false} RunExact(cls: CharClass, s: string, pos: nat, n: nat)
    requires pos + n <= |s|
    requires forall j :: pos <= j < pos + n ==> In(cls, s[j])
    requires pos + n == |s| || !In(cls, s[pos + n])
    ensures Run(cls, s, pos) == n
    decreases n
  {
    if n > 0 {
      RunExact(cls, s, pos + 1, n - 1);
    }
  }

  /** Lexicographic order on count vectors: the order in which PCRE prefers matches. */
  predicate LexLe(a: seq<nat>, b: seq<nat>)
  {
    a == [] || (b != [] && (a[0] < b[0] || (a[0] == b[0] && LexLe(a[1..], b[1..]))))
  }

  lemma {:induction false} MatchSound(p: Pattern, s: string, pos: nat, e: EndRule)
    requires pos <= |s|
    ensures Match(p, s, pos, e).Some? ==> Fits(p, s, pos, e, Match(p, s, pos, e).value)
    decreases |p|, 1, 0
  {
    if p != [] {
      var a := Avail(p[0], s, pos);
      if a >= p[0].min {
        TrySound(p, s, pos, e, a);
      }
    }
  }

  lemma {:induction false} TrySound(p: Pattern, s: string, pos: nat, e: EndRule, c: nat)
    requires pos <= |s| && p != [] && p[0].min <= c <= Avail(p[0], s, pos)
    ensures Try(p, s, pos, e, c).Some? ==> Fits(p, s, pos, e, Try(p, s, pos, e, c).value)
    decreases |p|, 0, c
  {
    AvailBound(p[0], s, pos, c);
    var m := Match(p[1..], s, pos + c, e);
    if m.Some? {
      MatchSound(p[1..], s, pos + c, e);
      var cs := [c] + m.value;
      assert cs[1..] == m.value;
    } else if c != p[0].min {
      TrySound(p, s, pos, e, c - 1);
    }
  }

  /**
   * Whenever some choice of counts fits, `Match` finds a match, and the one it
   * finds is at least as great as every fitting choice: it is the greatest.
   */
  lemma {:induction false} MatchComplete(p: Pattern, s: string, pos: nat, e: EndRule, cs: seq<nat>)
    requires pos <= |s| && Fits(p, s, pos, e, cs)
    ensures Match(p, s, pos, e).Some? && LexLe(cs, Match(p, s, pos, e).value)
    decreases |p|, 1, 0
  {
    if p != [] {
      AvailBound(p[0], s, pos, cs[0]);
      TryComplete(p, s, pos, e, cs, Avail(p[0], s, pos));
    }
  }

  lemma {:induction false} TryComplete(p: Pattern, s: string, pos: nat, e: EndRule, cs: seq<nat>, c: nat)
    requires pos <= |s| && p != [] && p[0].min <= c <= Avail(p[0], s, pos)
    requires Fits(p, s, pos, e, cs) && cs[0] <= c
    ensures Try(p, s, pos, e, c).Some? && LexLe(cs, Try(p, s, pos, e, c).value)
    decreases |p|, 0, c
  {
    AvailBound(p[0], s, pos, c);
    var m := Match(p[1..], s, pos + c, e);
    if cs[0] == c {
      MatchComplete(p[1..], s, pos + c, e, cs[1..]);
      var r := [c] + m.value;
      assert r[1..] == m.value;
    } else if m.Some? {
      var r := [c] + m.value;
      assert r[0] == c;
    } else {
      TryComplete(p, s, pos, e, cs, c - 1);
    }
  }

  // ---------------------------------------------------------------------
  // Lengths

  function Sum(cs: seq<nat>): nat
  {
    if cs == [] then 0 else cs[0] + Sum(cs[1..])
  }

  lemma SumCons(c: nat, cs: seq<nat>)
    ensures Sum([c] + cs) == c + Sum(cs)
  {
    assert ([c] + cs)[1..] == cs;
  }

  /** The fewest characters any match of the pattern consumes. */
  function MinLength(p: Pattern): nat
  {
    if p == [] then 0 else p[0].min + MinLength(p[1..])
  }

  lemma {:induction false} FitsLength(p: Pattern, s: string, pos: nat, e: EndRule, cs: seq<nat>)
    requires pos <= |s| && Fits(p, s, pos, e, cs)
    ensures MinLength(p) <= Sum(cs) && pos + Sum(cs) <= |s|
    decreases |p|
  {
    if p != [] {
      FitsLength(p[1..], s, pos + cs[0], e, cs[1..]);
    }
  }

  /** The length of the match found at the start of `s`, if any. */
  function MatchLength(p: Pattern, s: string, e: EndRule): (r: Option<nat>)
    ensures r.Some? ==> MinLength(p) <= r.value <= |s|
  {
    MatchSound(p, s, 0, e);
    match Match(p, s, 0, e)
    case Some(cs) => FitsLength(p, s, 0, e, cs); Some(Sum(cs))
    case None => None
  }

  /** `preg_match` of a pattern anchored with `^` at the start of the subject. */
  predicate Matches(p: Pattern, s: string, e: EndRule)
  {
    Match(p, s, 0, e).Some?
  }

  /** An anchored pattern matches exactly when some choice of counts fits. */
  lemma MatchesIff(p: Pattern, s: string, e: EndRule)
    ensures Matches(p, s, e) ==> exists cs :: Fits(p, s, 0, e, cs)
    ensures (exists cs :: Fits(p, s, 0, e, cs)) ==> Matches(p, s, e)
  {
    MatchSound(p, s, 0, e);
    if Matches(p, s, e) {
      assert Fits(p, s, 0, e, Match(p, s, 0, e).value);
    }
    if exists cs :: Fits(p, s, 0, e, cs) {
      var cs :| Fits(p, s, 0, e, cs);
      MatchComplete(p, s, 0, e, cs);
    }
  }

  // ---------------------------------------------------------------------
  // Global replacement

  /**
   * `preg_replace` of an unanchored pattern without look-behind: from left to
   * right, a match starting here is replaced by `repl` and scanning resumes
   * after it, otherwise the character is kept.  The second component is the
   * number of replacements (preg_replace's `$count`).
   */
  function ReplaceAll(p: Pattern, repl: string, s: string): (string, nat)
    requires MinLength(p) > 0
    decreases |s|
  {
    if s == [] then ("", 0)
    else
      match MatchLength(p, s, Anywhere)
      case Some(n) =>
        var r := ReplaceAll(p, repl, s[n..]);
        (repl + r.0, r.1 + 1)
      case None =>
        var r := ReplaceAll(p, repl, s[1..]);
        ([s[0]] + r.0, r.1)
  }

  /** A match found at position `i` lies within the subject and is at least `MinLength` long. */
  lemma MatchAtLength(p: Pattern, s: string, i: nat)
    ensures MatchesAt(p, s, i) ==> i + MinLength(p) <= |s|
  {
    if MatchesAt(p, s, i) {
      MatchSound(p, s[i..], 0, Anywhere);
      FitsLength(p, s[i..], 0, Anywhere, Match(p, s[i..], 0, Anywhere).value);
    }
  }

  /** A subject shorter than every match of the pattern is never changed. */
  lemma ReplaceAllShort(p: Pattern, repl: string, s: string)
    requires 0 < MinLength(p) && |s| < MinLength(p)
    ensures ReplaceAll(p, repl, s) == (s, 0)
  {
    forall i | 0 <= i < |s|
      ensures !MatchesAt(p, s, i)
    {
      MatchAtLength(p, s, i);
    }
    ReplaceAllNone(p, repl, s);
  }

  /** Every fitting choice consumes, for item `k`, a character of the subject from item `k`'s class. */
  lemma {:induction false} FitsUsesItem(p: Pattern, s: string, pos: nat, e: EndRule, cs: seq<nat>, k: nat)
    requires pos <= |s| && Fits(p, s, pos, e, cs) && k < |p| && p[k].min >= 1
    ensures exists j :: pos <= j < |s| && In(p[k].cls, s[j])
    decreases |p|
  {
    if k == 0 {
      assert In(p[0].cls, s[pos]);
    } else {
      FitsUsesItem(p[1..], s, pos + cs[0], e, cs[1..], k - 1);
    }
  }

  lemma MatchAtUsesItem(p: Pattern, s: string, i: nat, k: nat)
    requires k < |p| && p[k].min >= 1
    ensures MatchesAt(p, s, i) ==> exists j :: i <= j < |s| && In(p[k].cls, s[j])
  {
    if MatchesAt(p, s, i) {
      MatchSound(p, s[i..], 0, Anywhere);
      FitsUsesItem(p, s[i..], 0, Anywhere, Match(p, s[i..], 0, Anywhere).value, k);
      var j :| 0 <= j < |s[i..]| && In(p[k].cls, s[i..][j]);
      assert s[i..][j] == s[i + j];
    }
  }

  /**
   * When an item that must occur at least once has a class none of the
   * subject's characters belong to, the pattern never matches and the
   * subject is returned unchanged.
   */
  lemma ReplaceAllMissingClass(p: Pattern, repl: string, s: string, k: nat)
    requires 0 < MinLength(p) && k < |p| && p[k].min >= 1
    requires forall j :: 0 <= j < |s| ==> !In(p[k].cls, s[j])
    ensures ReplaceAll(p, repl, s) == (s, 0)
  {
    forall i | 0 <= i < |s|
      ensures !MatchesAt(p, s, i)
    {
      MatchAtUsesItem(p, s, i, k);
    }
    ReplaceAllNone(p, repl, s);
  }

  /** A match of the pattern starts at position `i` of `s`. */
  predicate MatchesAt(p: Pattern, s: string, i: nat)
  {
    i < |s| && Match(p, s[i..], 0, Anywhere).Some?
  }

  /**
   * `preg_replace` counts no replacement exactly when no match starts
   * anywhere in the subject, and then the subject comes back unchanged.
   */
  lemma {:induction false} ReplaceAllNone(p: Pattern, repl: string, s: string)
    requires MinLength(p) > 0
    ensures ReplaceAll(p, repl, s).1 == 0 <==> forall i :: 0 <= i < |s| ==> !MatchesAt(p, s, i)
    ensures ReplaceAll(p, repl, s).1 == 0 ==> ReplaceAll(p, repl, s).0 == s
    decreases |s|
  {
    if s != [] {
      if MatchLength(p, s, Anywhere).Some? {
        assert s[0..] == s;
        assert MatchesAt(p, s, 0);
      } else {
        ReplaceAllNone(p, repl, s[1..]);
        assert s[0..] == s;
        assert !MatchesAt(p, s, 0);
        if ReplaceAll(p, repl, s[1..]).1 == 0 {
          forall i | 0 <= i < |s|
            ensures !MatchesAt(p, s, i)
          {
            if i > 0 {
              assert s[1..][i - 1..] == s[i..];
              assert !MatchesAt(p, s[1..], i - 1);
            }
          }
        } else {
          var i :| 0 <= i < |s| - 1 && MatchesAt(p, s[1..], i);
          assert s[1..][i..] == s[i + 1..];
          assert MatchesAt(p, s, i + 1);
        }
        if ReplaceAll(p, repl, s).1 == 0 {
          assert s == [s[0]] + s[1..];
        }
      }
    }
  }

  /**
   * When no match starts inside the prefix `a`, `preg_replace` keeps `a`
   * as it is and goes on with `b`.
   */
  lemma {:induction false} ReplaceAllKeep(p: Pattern, repl: string, a: string, b: string)
    requires MinLength(p) > 0
    requires forall i :: 0 <= i < |a| ==> !MatchesAt(p, a + b, i)
    ensures ReplaceAll(p, repl, a + b) == (a + ReplaceAll(p, repl, b).0, ReplaceAll(p, repl, b).1)
    decreases |a|
  {
    var s := a + b;
    if a == [] {
      assert s == b;
      assert a + ReplaceAll(p, repl, b).0 == ReplaceAll(p, repl, b).0;
    } else {
      assert s[0..] == s;
      assert !MatchesAt(p, s, 0);
      assert s[1..] == a[1..] + b;
      forall i | 0 <= i < |a| - 1
        ensures !MatchesAt(p, a[1..] + b, i)
      {
        assert (a[1..] + b)[i..] == s[i + 1..];
        assert !MatchesAt(p, s, i + 1);
      }
      ReplaceAllKeep(p, repl, a[1..], b);
      var r := ReplaceAll(p, repl, b).0;
      assert [s[0]] + (a[1..] + r) == a + r;
    }
  }

  /**
   * When the match at the start of `m + b` is exactly `m`, `preg_replace`
   * puts `repl` for it and goes on with `b`.
   */
  lemma ReplaceAllHit(p: Pattern, repl: string, m: string, b: string)
    requires MinLength(p) > 0 && MatchLength(p, m + b, Anywhere) == Some(|m|)
    ensures ReplaceAll(p, repl, m + b) == (repl + ReplaceAll(p, repl, b).0, ReplaceAll(p, repl, b).1 + 1)
  {
    assert (m + b)[|m|..] == b;
  }

  /** A match starts with a character of its first item's class when that item must occur. */
  lemma MatchAtStart(p: Pattern, s: string, i: nat)
    requires p != [] && p[0].min >= 1
    ensures MatchesAt(p, s, i) ==> In(p[0].cls, s[i])
  {
    MatchAtUsesItem(p, s, i, 0);
    if MatchesAt(p, s, i) {
      MatchSound(p, s[i..], 0, Anywhere);
      var cs := Match(p, s[i..], 0, Anywhere).value;
      assert RunOf(p[0].cls, s[i..], 0, cs[0]);
      assert s[i..][0] == s[i];
    }
  }
}
