/**
 * Redaction of personally identifiable information from a webform
 * submission: elements are picked by their type and machine id, fully
 * redacted ones lose their value, textareas are scrubbed of postcodes,
 * email addresses and numbers, and a note lists what was redacted.
 */
module PiiRedactor {
  import opened Php
  import PiiRedactorForText

  /** Element types carrying personal details for certain. */
  const PiiElementTypes: seq<string> := [
    "address", "email", "localgov_forms_dob", "localgov_webform_uk_address", "number", "tel",
    "webform_name", "webform_address", "webform_contact", "webform_telephone"]

  /** Element types that may carry personal details: redacted when the machine id suggests so. */
  const PotentialPiiElementTypes: seq<string> := [
    "localgov_forms_date", "checkboxes", "processed_text", "radios", "textfield"]

  /** Element types whose text mixes personal details with other text. */
  const PartPiiElementTypes: seq<string> := ["textarea"]

  /** The alternatives of the case-insensitive, unanchored machine-id pattern. */
  const GuessedPiiFragments: seq<string> := [
    "name", "mail", "phone", "contact_number", "date_of_birth", "dob_", "nino", "address", "postcode",
    "post_code", "personal_", "title", "passport", "serial_number", "reg_number", "pcn_", "driver_"]

  const FullNotePrefix: string := "Redacted elements: "
  const PartNotePrefix: string := "Partly redacted elements: "

  /**
   * The webform's flattened element definitions, in form order: a machine id
   * and the decoded definition array. Machine ids are the keys of a PHP
   * array, so they are distinct.
   */
  type ElementDefs = seq<(string, Value)>

  predicate DistinctIds(ids: seq<string>)
  {
    forall i, j :: 0 <= i < j < |ids| ==> ids[i] != ids[j]
  }

  predicate UniqueIds(defs: seq<(string, Value)>)
  {
    forall i, j :: 0 <= i < j < |defs| ==> defs[i].0 != defs[j].0
  }

  // ---------------------------------------------------------------------
  // Choosing the elements

  /** Each element id with its `#type` (NULL when the definition has none). */
  function ListElemsAndTypes(defs: ElementDefs): (r: seq<(string, Value)>)
    ensures |r| == |defs|
    ensures forall i :: 0 <= i < |defs| ==> r[i].0 == defs[i].0
  {
    if defs == [] then [] else [(defs[0].0, Index(defs[0].1, StrKey("#type")))] + ListElemsAndTypes(defs[1..])
  }

  /**
   * `array_intersect` compares string forms; the tables hold only strings
   * of letters and underscores, which no non-string value converts to.
   */
  predicate TypeIn(t: Value, table: seq<string>)
  {
    t.Str? && t.s in table
  }

  /** The ids whose type is in `table`, in element order. */
  function IdsOfType(types: seq<(string, Value)>, table: seq<string>): (r: seq<string>)
    ensures |r| <= |types|
  {
    if types == [] then []
    else if TypeIn(types[0].1, table) then [types[0].0] + IdsOfType(types[1..], table)
    else IdsOfType(types[1..], table)
  }

  /** The machine-id pattern finds one of its alternatives anywhere in the id, ignoring case. */
  predicate GuessedPii(id: string)
  {
    exists k | 0 <= k < |GuessedPiiFragments| :: Occurs(GuessedPiiFragments[k], Lower(id))
  }

  /** `preg_grep`: the ids the pattern matches, in order. */
  function GrepGuessed(ids: seq<string>): (r: seq<string>)
    ensures |r| <= |ids|
  {
    if ids == [] then []
    else if GuessedPii(ids[0]) then [ids[0]] + GrepGuessed(ids[1..])
    else GrepGuessed(ids[1..])
  }

  datatype ElemsToRedact = ElemsToRedact(full: seq<string>, part: seq<string>)

  /** Certain-PII ids, then potential-PII ids with a telling machine id; textareas for partial redaction. */
  function FindElemsToRedact(defs: ElementDefs): ElemsToRedact
  {
    var types := ListElemsAndTypes(defs);
    ElemsToRedact(
      IdsOfType(types, PiiElementTypes) + GrepGuessed(IdsOfType(types, PotentialPiiElementTypes)),
      IdsOfType(types, PartPiiElementTypes))
  }

  /** The element's type, as `listElemsAndTypes` reads it. */
  function TypeOf(def: Value): Value { Index(def, StrKey("#type")) }

  lemma {:induction false} IdsOfTypeMembers(types: seq<(string, Value)>, table: seq<string>, id: string)
    ensures id in IdsOfType(types, table) <==> exists i :: 0 <= i < |types| && types[i].0 == id && TypeIn(types[i].1, table)
  {
    if types != [] {
      IdsOfTypeMembers(types[1..], table, id);
      if id in IdsOfType(types[1..], table) {
        var i :| 0 <= i < |types[1..]| && types[1..][i].0 == id && TypeIn(types[1..][i].1, table);
        assert types[i + 1] == types[1..][i];
      }
      if exists i :: 0 <= i < |types| && types[i].0 == id && TypeIn(types[i].1, table) {
        var i :| 0 <= i < |types| && types[i].0 == id && TypeIn(types[i].1, table);
        if i > 0 {
          assert types[1..][i - 1] == types[i];
        }
      }
    }
  }

  lemma {:induction false} GrepGuessedMembers(ids: seq<string>, id: string)
    ensures id in GrepGuessed(ids) <==> id in ids && GuessedPii(id)
  {
    if ids != [] {
      GrepGuessedMembers(ids[1..], id);
      assert ids == [ids[0]] + ids[1..];
    }
  }

  lemma {:induction false} IdsOfTypeSubsequence(types: seq<(string, Value)>, table: seq<string>)
    requires UniqueIds(types)
    ensures DistinctIds(IdsOfType(types, table))
  {
    if types != [] {
      assert UniqueIds(types[1..]) by {
        forall i, j | 0 <= i < j < |types| - 1 ensures types[1..][i].0 != types[1..][j].0 {
          assert types[1..][i] == types[i + 1] && types[1..][j] == types[j + 1];
        }
      }
      IdsOfTypeSubsequence(types[1..], table);
      var rest := IdsOfType(types[1..], table);
      if TypeIn(types[0].1, table) {
        forall id | id in rest ensures id != types[0].0 {
          IdsOfTypeMembers(types[1..], table, id);
          var i :| 0 <= i < |types[1..]| && types[1..][i].0 == id && TypeIn(types[1..][i].1, table);
          assert types[1..][i] == types[i + 1];
        }
        ConsDistinct(types[0].0, rest);
      }
    }
  }

  lemma ConsDistinct(x: string, rest: seq<string>)
    requires DistinctIds(rest) && x !in rest
    ensures DistinctIds([x] + rest)
  {
    var r := [x] + rest;
    forall i, j | 0 <= i < j < |r| ensures r[i] != r[j] {
      assert r[j] == rest[j - 1];
      if i > 0 {
        assert r[i] == rest[i - 1];
      }
    }
  }

  lemma {:induction false} GrepGuessedDistinct(ids: seq<string>)
    requires DistinctIds(ids)
    ensures DistinctIds(GrepGuessed(ids))
  {
    if ids != [] {
      assert DistinctIds(ids[1..]) by {
        forall i, j | 0 <= i < j < |ids| - 1 ensures ids[1..][i] != ids[1..][j] {
          assert ids[1..][i] == ids[i + 1] && ids[1..][j] == ids[j + 1];
        }
      }
      GrepGuessedDistinct(ids[1..]);
      if GuessedPii(ids[0]) {
        forall id | id in GrepGuessed(ids[1..]) ensures id != ids[0] {
          GrepGuessedMembers(ids[1..], id);
          if id in ids[1..] {
            var k :| 0 <= k < |ids[1..]| && ids[1..][k] == id;
            assert ids[0] != ids[k + 1];
          }
        }
        ConsDistinct(ids[0], GrepGuessed(ids[1..]));
      }
    }
  }

  /**
   * An element is fully redacted exactly when its type is a certain-PII type,
   * or a potential-PII type and its machine id matches the pattern; it is
   * partly redacted exactly when it is a textarea.
   */
  lemma FindElemsToRedactMembers(defs: ElementDefs, id: string)
    ensures id in FindElemsToRedact(defs).full <==>
      exists i :: 0 <= i < |defs| && defs[i].0 == id &&
        (TypeIn(TypeOf(defs[i].1), PiiElementTypes) || (TypeIn(TypeOf(defs[i].1), PotentialPiiElementTypes) && GuessedPii(id)))
    ensures id in FindElemsToRedact(defs).part <==>
      exists i :: 0 <= i < |defs| && defs[i].0 == id && TypeOf(defs[i].1) == Str("textarea")
  {
    var types := ListElemsAndTypes(defs);
    assert forall i :: 0 <= i < |defs| ==> types[i].1 == TypeOf(defs[i].1) by {
      ListElemsAndTypesValues(defs);
    }
    IdsOfTypeMembers(types, PiiElementTypes, id);
    IdsOfTypeMembers(types, PotentialPiiElementTypes, id);
    IdsOfTypeMembers(types, PartPiiElementTypes, id);
    GrepGuessedMembers(IdsOfType(types, PotentialPiiElementTypes), id);
  }

  lemma {:induction false} ListElemsAndTypesValues(defs: ElementDefs)
    ensures forall i :: 0 <= i < |defs| ==> ListElemsAndTypes(defs)[i].1 == TypeOf(defs[i].1)
  {
    if defs != [] {
      ListElemsAndTypesValues(defs[1..]);
      forall i | 1 <= i < |defs| ensures ListElemsAndTypes(defs)[i].1 == TypeOf(defs[i].1) {
        assert ListElemsAndTypes(defs)[i] == ListElemsAndTypes(defs[1..])[i - 1];
      }
    }
  }

  /**
   * No element is listed twice, and none is both fully and partly
   * redacted, since the type tables are disjoint.
   */
  lemma FindElemsToRedactDistinct(defs: ElementDefs)
    requires UniqueIds(defs)
    ensures DistinctIds(FindElemsToRedact(defs).full)
    ensures DistinctIds(FindElemsToRedact(defs).part)
    ensures forall id :: id in FindElemsToRedact(defs).full ==> id !in FindElemsToRedact(defs).part
  {
    var types := ListElemsAndTypes(defs);
    assert UniqueIds(types);
    var pii := IdsOfType(types, PiiElementTypes);
    var potential := IdsOfType(types, PotentialPiiElementTypes);
    var guessed := GrepGuessed(potential);
    IdsOfTypeSubsequence(types, PiiElementTypes);
    IdsOfTypeSubsequence(types, PotentialPiiElementTypes);
    IdsOfTypeSubsequence(types, PartPiiElementTypes);
    GrepGuessedDistinct(potential);
    // an id sits at one position, and its single type is in at most one table
    forall id | id in pii ensures id !in guessed && id !in IdsOfType(types, PartPiiElementTypes) {
      IdsOfTypeMembers(types, PiiElementTypes, id);
      IdsOfTypeMembers(types, PotentialPiiElementTypes, id);
      IdsOfTypeMembers(types, PartPiiElementTypes, id);
      GrepGuessedMembers(potential, id);
      var i :| 0 <= i < |types| && types[i].0 == id && TypeIn(types[i].1, PiiElementTypes);
      OnlyPosition(types, i);
      TablesDisjoint(types[i].1);
    }
    forall id | id in guessed ensures id !in IdsOfType(types, PartPiiElementTypes) {
      GrepGuessedMembers(potential, id);
      IdsOfTypeMembers(types, PotentialPiiElementTypes, id);
      IdsOfTypeMembers(types, PartPiiElementTypes, id);
      var i :| 0 <= i < |types| && types[i].0 == id && TypeIn(types[i].1, PotentialPiiElementTypes);
      OnlyPosition(types, i);
      TablesDisjoint(types[i].1);
    }
    var full := pii + guessed;
    forall i, j | 0 <= i < j < |full| ensures full[i] != full[j] {
      if i < |pii| && j >= |pii| {
        assert full[j] == guessed[j - |pii|];
        assert full[i] in pii;
      }
    }
  }

  lemma OnlyPosition(types: seq<(string, Value)>, i: nat)
    requires i < |types| && UniqueIds(types)
    ensures forall j :: 0 <= j < |types| && types[j].0 == types[i].0 ==> j == i
  {
  }

  lemma TablesDisjoint(t: Value)
    ensures !(TypeIn(t, PiiElementTypes) && TypeIn(t, PotentialPiiElementTypes))
    ensures !(TypeIn(t, PiiElementTypes) && TypeIn(t, PartPiiElementTypes))
    ensures !(TypeIn(t, PotentialPiiElementTypes) && TypeIn(t, PartPiiElementTypes))
  {
  }

  // ---------------------------------------------------------------------
  // Which machine ids the pattern matches

  /** Every alternative of the pattern holds one of `_`, `a`, `o` and `l`. */
  predicate Marker(c: char) { c == '_' || c == 'a' || c == 'o' || c == 'l' }

  lemma FragmentsHaveMarker()
    ensures forall k :: 0 <= k < |GuessedPiiFragments| ==>
      exists i :: 0 <= i < |GuessedPiiFragments[k]| && Marker(GuessedPiiFragments[k][i])
  {
    var f := GuessedPiiFragments;
    assert Marker(f[0][1]) && Marker(f[1][1]) && Marker(f[2][2]) && Marker(f[3][1]);
    assert Marker(f[4][1]) && Marker(f[5][1]) && Marker(f[6][3]) && Marker(f[7][0]);
    assert Marker(f[8][1]) && Marker(f[9][1]) && Marker(f[10][8]) && Marker(f[11][3]);
    assert Marker(f[12][1]) && Marker(f[13][4]) && Marker(f[14][3]) && Marker(f[15][3]);
    assert Marker(f[16][6]);
  }

  /** An id without `_`, `a`, `o` or `l` in either case is never guessed to hold personal details. */
  lemma NoMarkerNotGuessed(id: string)
    requires forall i :: 0 <= i < |id| ==> !Marker(LowerChar(id[i]))
    ensures !GuessedPii(id)
  {
    GuessedHasMarker(id);
  }

  lemma GuessedHasMarker(id: string)
    ensures GuessedPii(id) ==> exists j :: 0 <= j < |id| && Marker(LowerChar(id[j]))
  {
    FragmentsHaveMarker();
    if GuessedPii(id) {
      var k :| 0 <= k < |GuessedPiiFragments| && Occurs(GuessedPiiFragments[k], Lower(id));
      var f := GuessedPiiFragments[k];
      var p :| 0 <= p <= |Lower(id)| - |f| && OccursAt(f, Lower(id), p);
      var i :| 0 <= i < |f| && Marker(f[i]);
      assert Lower(id)[p + i] == f[i];
    }
  }

  lemma LowerOfLowercase(s: string)
    requires forall i :: 0 <= i < |s| ==> !IsUpper(s[i])
    ensures Lower(s) == s
  {
  }

  /** An id that starts with the `k`-th alternative, in lower case, is guessed. */
  lemma PrefixGuessed(id: string, k: nat)
    requires k < |GuessedPiiFragments| && forall i :: 0 <= i < |id| ==> !IsUpper(id[i])
    requires |GuessedPiiFragments[k]| <= |id| && id[..|GuessedPiiFragments[k]|] == GuessedPiiFragments[k]
    ensures GuessedPii(id)
  {
    LowerOfLowercase(id);
    assert OccursAt(GuessedPiiFragments[k], Lower(id), 0);
  }

  // ---------------------------------------------------------------------
  // Redacting a submission

  /** Per element, what `array_map` returns: the id when redacted, NULL otherwise. */
  type Results = seq<Value>

  /**
   * `array_filter` over the results. A numeric id comes back from
   * `array_keys` as an integer, which PHP finds truthy exactly when it finds
   * the decimal string truthy, and `implode` prints it the same way.
   */
  function ReportedIds(results: Results): (r: seq<string>)
    ensures forall x :: x in r <==> Str(x) in results && Truthy(Str(x))
  {
    if results == [] then []
    else if results[0].Str? && Truthy(results[0]) then [results[0].s] + ReportedIds(results[1..])
    else ReportedIds(results[1..])
  }

  /** `getElementData`: the stored value, or NULL. */
  function ElementData(data: Entries, id: string): Value
  {
    Coalesce(Arr(data), K(id), Null)
  }

  /** The data after fully redacting `ids` in order, with the per-element results. */
  function FullPass(data: Entries, ids: seq<string>): (Entries, Results)
    decreases |ids|
  {
    if ids == [] then (data, [])
    else
      var prev := FullPass(data, ids[..|ids| - 1]);
      var id := ids[|ids| - 1];
      if Truthy(ElementData(prev.0, id)) then (Put(prev.0, K(id), Null), prev.1 + [Str(id)])
      else (prev.0, prev.1 + [Null])
  }

  /**
   * The state of the partial pass: the data, the per-element results, and
   * the element whose truthy non-string value stopped the pass with a type
   * error (the text redactor takes a string, and strict typing is on).
   */
  datatype PartState = PartState(data: Entries, results: Results, failed: Option<string>)

  function PartStep(prev: PartState, id: string): PartState
  {
    if prev.failed.Some? then prev
    else
      var text := ElementData(prev.data, id);
      if !Truthy(text) then prev.(results := prev.results + [Null])
      else if !text.Str? then prev.(failed := Some(id))
      else
        var red := PiiRedactorForText.Redact(text.s);
        if red.count != 0 then PartState(Put(prev.data, K(id), Str(red.text)), prev.results + [Str(id)], None)
        else prev.(results := prev.results + [Null])
  }

  function PartPass(data: Entries, ids: seq<string>): PartState
    decreases |ids|
  {
    if ids == [] then PartState(data, [], None) else PartStep(PartPass(data, ids[..|ids| - 1]), ids[|ids| - 1])
  }

  /**
   * The notes after `addRedactionNote`: unchanged when nothing was redacted;
   * otherwise the note "prefix id, id, ...." on a line of its own after the
   * existing notes, or alone when those are falsy.
   */
  function NoteAfter(notes: string, elems: seq<string>, prefix: string): string
  {
    if elems == [] then notes
    else
      var note := prefix + Join(", ", elems) + ".";
      if Truthy(Str(notes)) then notes + "\n" + note else note
  }

  /** What `redact` returns: the redacted ids, or the type error that aborted it. */
  datatype Outcome = Redacted(elems: seq<string>) | TypeError(elem: string)

  /** A submission's data and notes after `redact`, with its return value. */
  datatype Redaction = Redaction(data: Entries, notes: string, outcome: Outcome)

  /**
   * `redact` as a whole: the full pass, then the partial pass on its output;
   * a type error leaves the notes as they were, otherwise both notes are added.
   */
  function RedactionOf(elements: ElementDefs, data: Entries, notes: string): Redaction
  {
    var todo := FindElemsToRedact(elements);
    var full := FullPass(data, todo.full);
    var part := PartPass(full.0, todo.part);
    if part.failed.Some? then Redaction(part.data, notes, TypeError(part.failed.value))
    else
      var fullIds := ReportedIds(full.1);
      var partIds := ReportedIds(part.results);
      Redaction(part.data, NoteAfter(NoteAfter(notes, fullIds, FullNotePrefix), partIds, PartNotePrefix),
        Redacted(fullIds + partIds))
  }

  class Submission {
    /** The webform's flattened element definitions. */
    const elements: ElementDefs
    var data: Entries
    var notes: string

    constructor(elements: ElementDefs, data: Entries, notes: string)
      ensures this.elements == elements && this.data == data && this.notes == notes
    {
      this.elements := elements;
      this.data := data;
      this.notes := notes;
    }

    function GetElementData(id: string): Value
      reads this
    {
      ElementData(data, id)
    }

    /** The element exists in the webform, so its value is stored. */
    method SetElementData(id: string, v: Value)
      modifies this`data
      ensures data == Put(old(data), K(id), v)
    {
      data := Put(data, K(id), v);
    }

    method SetNotes(n: string)
      modifies this`notes
      ensures notes == n
    {
      notes := n;
    }
  }

  method AddRedactionNote(sub: Submission, elems: seq<string>, prefix: string)
    modifies sub`notes
    ensures sub.notes == NoteAfter(old(sub.notes), elems, prefix)
  {
    if elems == [] {
      return;
    }
    var note := prefix + Join(", ", elems) + ".";
    var existing := sub.notes;
    if Truthy(Str(existing)) {
      sub.SetNotes(existing + "\n" + note);
    } else {
      sub.SetNotes(note);
    }
  }

  lemma SnocPrefix(ids: seq<string>, i: nat)
    requires i < |ids|
    ensures ids[..i + 1][..i] == ids[..i] && ids[..i + 1][i] == ids[i]
  {
  }

  /** The first `array_map`: every listed element with a truthy value is set to NULL. */
  method RedactFully(sub: Submission, ids: seq<string>) returns (results: Results)
    modifies sub`data
    ensures (sub.data, results) == FullPass(old(sub.data), ids)
  {
    ghost var data0 := sub.data;
    results := [];
    var i := 0;
    while i < |ids|
      invariant 0 <= i <= |ids|
      invariant (sub.data, results) == FullPass(data0, ids[..i])
    {
      var id := ids[i];
      SnocPrefix(ids, i);
      if Truthy(sub.GetElementData(id)) {
        sub.SetElementData(id, Null);
        results := results + [Str(id)];
      } else {
        results := results + [Null];
      }
      i := i + 1;
    }
    assert ids[..|ids|] == ids;
  }

  /**
   * The second `array_map`: every listed element with a truthy string value
   * gets the redacted text when the text redactor replaced something; a
   * truthy value of another type raises a type error.
   */
  method RedactPartly(sub: Submission, ids: seq<string>) returns (results: Results, failed: Option<string>)
    modifies sub`data
    ensures PartPass(old(sub.data), ids) == PartState(sub.data, results, failed)
  {
    ghost var data0 := sub.data;
    results := [];
    var j := 0;
    while j < |ids|
      invariant 0 <= j <= |ids|
      invariant PartPass(data0, ids[..j]) == PartState(sub.data, results, None)
    {
      var id := ids[j];
      SnocPrefix(ids, j);
      var text := sub.GetElementData(id);
      if Truthy(text) {
        if !text.Str? {
          PartPassStopped(data0, ids, j + 1);
          return results, Some(id);
        }
        var red := PiiRedactorForText.Redact(text.s);
        if red.count != 0 {
          sub.SetElementData(id, Str(red.text));
          results := results + [Str(id)];
        } else {
          results := results + [Null];
        }
      } else {
        results := results + [Null];
      }
      j := j + 1;
    }
    assert ids[..|ids|] == ids;
    failed := None;
  }

  method Redact(sub: Submission) returns (outcome: Outcome)
    modifies sub
    ensures Redaction(sub.data, sub.notes, outcome) == RedactionOf(sub.elements, old(sub.data), old(sub.notes))
  {
    var todo := FindElemsToRedact(sub.elements);
    var results := RedactFully(sub, todo.full);
    var partResults, failed := RedactPartly(sub, todo.part);
    if failed.Some? {
      return TypeError(failed.value);
    }
    var fullIds := ReportedIds(results);
    var partIds := ReportedIds(partResults);
    AddRedactionNote(sub, fullIds, FullNotePrefix);
    AddRedactionNote(sub, partIds, PartNotePrefix);
    outcome := Redacted(fullIds + partIds);
  }

  /** Once the partial pass has stopped, later elements change nothing. */
  lemma {:induction false} PartPassStopped(data: Entries, ids: seq<string>, n: nat)
    requires n <= |ids| && PartPass(data, ids[..n]).failed.Some?
    ensures PartPass(data, ids) == PartPass(data, ids[..n])
    decreases |ids| - n
  {
    if n < |ids| {
      assert ids[..n + 1][..n] == ids[..n];
      PartPassStopped(data, ids, n + 1);
    } else {
      assert ids[..n] == ids;
    }
  }

  // ---------------------------------------------------------------------
  // What the passes do

  /** Putting one element's value leaves every other element's value as it was. */
  lemma PutOther(data: Entries, id: string, v: Value, other: string)
    requires other != id
    ensures ElementData(Put(data, K(id), v), other) == ElementData(data, other)
  {
    KeyOfInjective(other, id);
    PutLookup(data, K(id), v, K(other));
  }

  lemma PutSame(data: Entries, id: string, v: Value)
    ensures ElementData(Put(data, K(id), v), id) == (if v == Null then Null else v)
  {
    PutLookup(data, K(id), v, K(id));
  }

  lemma DistinctPrefix(ids: seq<string>, n: nat)
    requires DistinctIds(ids) && n <= |ids|
    ensures DistinctIds(ids[..n])
    ensures n < |ids| ==> ids[n] !in ids[..n]
  {
  }

  /**
   * The full pass leaves every listed element with a falsy value, reports
   * exactly the listed elements whose value was truthy (and whose id PHP
   * finds truthy), and leaves every other key of the data alone.
   */
  lemma {:induction false} FullPassEffect(data: Entries, ids: seq<string>)
    requires DistinctIds(ids)
    ensures forall id :: id in ids ==> !Truthy(ElementData(FullPass(data, ids).0, id))
    ensures forall id :: id in ReportedIds(FullPass(data, ids).1) <==>
      id in ids && Truthy(Str(id)) && Truthy(ElementData(data, id))
    ensures forall other :: other !in ids ==> ElementData(FullPass(data, ids).0, other) == ElementData(data, other)
    decreases |ids|
  {
    if ids != [] {
      var n := |ids| - 1;
      var front := ids[..n];
      var last := ids[n];
      assert ids == front + [last];
      DistinctPrefix(ids, n);
      FullPassEffect(data, front);
      var prev := FullPass(data, front);
      assert ElementData(prev.0, last) == ElementData(data, last);
      if Truthy(ElementData(prev.0, last)) {
        forall other | other != last ensures ElementData(Put(prev.0, K(last), Null), other) == ElementData(prev.0, other) {
          PutOther(prev.0, last, Null, other);
        }
        PutSame(prev.0, last, Null);
      }
    }
  }

  /** The value a textarea holds after the partial pass, given the value it held before. */
  function PartlyRedacted(v: Value): Value
  {
    if Truthy(v) && v.Str? then Str(PiiRedactorForText.Redact(v.s).text) else v
  }

  /**
   * A partial pass that completes leaves every listed element holding its
   * text with postcodes, email addresses and numbers redacted; it reports
   * exactly the elements whose text changed count; every other key is
   * left alone.
   */
  lemma {:induction false} PartPassEffect(data: Entries, ids: seq<string>)
    requires DistinctIds(ids) && PartPass(data, ids).failed.None?
    ensures forall id :: id in ids ==> ElementData(PartPass(data, ids).data, id) == PartlyRedacted(ElementData(data, id))
    ensures forall id :: id in ReportedIds(PartPass(data, ids).results) <==>
      id in ids && Truthy(Str(id)) && Truthy(ElementData(data, id)) && ElementData(data, id).Str? &&
      PiiRedactorForText.Redact(ElementData(data, id).s).count != 0
    ensures forall other :: other !in ids ==> ElementData(PartPass(data, ids).data, other) == ElementData(data, other)
    decreases |ids|
  {
    if ids != [] {
      var n := |ids| - 1;
      var front := ids[..n];
      var last := ids[n];
      assert ids == front + [last];
      DistinctPrefix(ids, n);
      var prev := PartPass(data, front);
      assert prev.failed.None?;
      PartPassEffect(data, front);
      var text := ElementData(prev.data, last);
      assert text == ElementData(data, last);
      if Truthy(text) {
        var red := PiiRedactorForText.Redact(text.s);
        if red.count != 0 {
          forall other | other != last ensures ElementData(Put(prev.data, K(last), Str(red.text)), other) == ElementData(prev.data, other) {
            PutOther(prev.data, last, Str(red.text), other);
          }
          PutSame(prev.data, last, Str(red.text));
        } else {
          PiiRedactorForText.RedactZeroCountUnchanged(text.s);
        }
      }
    }
  }

  /** The partial pass stops exactly when a listed element holds a truthy value that is not a string. */
  lemma {:induction false} PartPassFails(data: Entries, ids: seq<string>)
    requires DistinctIds(ids)
    ensures PartPass(data, ids).failed.None? <==>
      forall id :: id in ids && Truthy(ElementData(data, id)) ==> ElementData(data, id).Str?
    ensures PartPass(data, ids).failed.Some? ==>
      var id := PartPass(data, ids).failed.value;
      id in ids && Truthy(ElementData(data, id)) && !ElementData(data, id).Str?
    decreases |ids|
  {
    if ids != [] {
      var n := |ids| - 1;
      var front := ids[..n];
      var last := ids[n];
      assert ids == front + [last];
      DistinctPrefix(ids, n);
      PartPassFails(data, front);
      var prev := PartPass(data, front);
      if prev.failed.None? {
        PartPassEffect(data, front);
        assert ElementData(prev.data, last) == ElementData(data, last);
      }
    }
  }

  /** After a completed redaction every partly redacted element is falsy or a digit-free string. */
  lemma PartlyRedactedHasNoDigit(v: Value)
    ensures var w := PartlyRedacted(v); !Truthy(w) || (w.Str? && PiiRedactorForText.NoDigit(w.s)) || !v.Str?
  {
    if Truthy(v) && v.Str? {
      PiiRedactorForText.RedactLeavesNoDigit(v.s);
    }
  }

  /**
   * Redacting a submission whose textareas hold strings: every fully
   * redacted element ends up falsy, every textarea holds its redacted text,
   * and every other element keeps its value.
   */
  lemma RedactionEffect(defs: ElementDefs, data: Entries)
    requires UniqueIds(defs)
    requires forall id :: id in FindElemsToRedact(defs).part && Truthy(ElementData(data, id)) ==> ElementData(data, id).Str?
    ensures var todo := FindElemsToRedact(defs);
      var full := FullPass(data, todo.full);
      var part := PartPass(full.0, todo.part);
      part.failed.None? &&
      (forall id :: id in todo.full ==> !Truthy(ElementData(part.data, id))) &&
      (forall id :: id in todo.part ==> ElementData(part.data, id) == PartlyRedacted(ElementData(data, id))) &&
      (forall id :: id !in todo.full && id !in todo.part ==> ElementData(part.data, id) == ElementData(data, id))
  {
    var todo := FindElemsToRedact(defs);
    FindElemsToRedactDistinct(defs);
    FullPassEffect(data, todo.full);
    var full := FullPass(data, todo.full);
    PartPassFails(full.0, todo.part);
    PartPassEffect(full.0, todo.part);
  }

  /** A webform with nothing to redact leaves the submission as it is. */
  lemma NothingToRedact(elements: ElementDefs, data: Entries, notes: string)
    requires FindElemsToRedact(elements) == ElemsToRedact([], [])
    ensures RedactionOf(elements, data, notes) == Redaction(data, notes, Redacted([]))
  {
  }

  // ---------------------------------------------------------------------
  // The redaction note

  /**
   * `addRedactionNote` keeps the existing notes (when truthy) as the start
   * of the new notes, and the ids can be read back from the note it adds,
   * provided no id holds a comma.
   */
  lemma NoteAfterKeepsIds(notes: string, elems: seq<string>, prefix: string)
    requires forall k :: 0 <= k < |elems| ==> Lacks(elems[k], ',')
    ensures elems == [] ==> NoteAfter(notes, elems, prefix) == notes
    ensures elems != [] ==>
      var r := NoteAfter(notes, elems, prefix);
      var start := if Truthy(Str(notes)) then |notes| + 1 else 0;
      start + |prefix| < |r| &&
      (Truthy(Str(notes)) ==> r[..start] == notes + "\n") &&
      r[start..start + |prefix|] == prefix && r[|r| - 1] == '.' &&
      Explode(", ", r[start + |prefix|..|r| - 1]) == elems
  {
    if elems != [] {
      NoteAfterParts(notes, elems, prefix);
      if Truthy(Str(notes)) {
        HeadedNote(notes + "\n", prefix, elems);
      } else {
        HeadedNote("", prefix, elems);
      }
    }
  }

  /** A note after any head: the head, the prefix, the ids read back, a full stop. */
  lemma HeadedNote(head: string, prefix: string, elems: seq<string>)
    requires elems != []
    requires forall k :: 0 <= k < |elems| ==> Lacks(elems[k], ',')
    ensures var r := head + prefix + Join(", ", elems) + ".";
      |head| + |prefix| < |r| && r[..|head|] == head && r[|head|..|head| + |prefix|] == prefix &&
      r[|r| - 1] == '.' && Explode(", ", r[|head| + |prefix|..|r| - 1]) == elems
  {
    NoteSlices(head, prefix, Join(", ", elems));
    ExplodeOfJoin(", ", elems);
  }

  lemma NoteAfterParts(notes: string, elems: seq<string>, prefix: string)
    requires elems != []
    ensures NoteAfter(notes, elems, prefix) == (if Truthy(Str(notes)) then notes + "\n" else "") + prefix + Join(", ", elems) + "."
  {
  }

  lemma NoteSlices(head: string, prefix: string, body: string)
    ensures var r := head + prefix + body + ".";
      |r| == |head| + |prefix| + |body| + 1 &&
      r[..|head|] == head && r[|head|..|head| + |prefix|] == prefix &&
      r[|head| + |prefix|..|r| - 1] == body && r[|r| - 1] == '.'
  {
  }

  // ---------------------------------------------------------------------
  // The element list of the redactor's unit test

  function Def(t: string): Value { Arr([(StrKey("#type"), Str(t))]) }

  /** The (id, type) list `listElemsAndTypes` makes of the sample form. */
  predicate SampleTypes(types: seq<(string, Value)>)
  {
    |types| == 11 && SampleTypesFront(types) && SampleTypesBack(types)
  }

  predicate SampleTypesFront(types: seq<(string, Value)>)
    requires |types| == 11
  {
    types[0] == ("name", Str("textfield")) &&
    types[1] == ("email", Str("email")) &&
    types[2] == ("subject", Str("textfield")) &&
    types[3] == ("message", Str("textarea")) &&
    types[4] == ("work_number", Str("tel")) &&
    types[5] == ("nino", Str("textfield"))
  }

  predicate SampleTypesBack(types: seq<(string, Value)>)
    requires |types| == 11
  {
    types[6] == ("location", Str("address")) &&
    types[7] == ("cars", Str("number")) &&
    types[8] == ("gender", Str("radios")) &&
    types[9] == ("ethnicity", Str("checkboxes")) &&
    types[10] == ("date_of_birth", Str("localgov_forms_date"))
  }



  lemma TypeOfDef(t: string)
    ensures TypeOf(Def(t)) == Str(t)
  {
    assert Lookup(Def(t).entries, StrKey("#type")) == Some(Str(t));
  }

  lemma IdsOfTypeStep(types: seq<(string, Value)>, table: seq<string>, i: nat)
    requires i < |types|
    ensures IdsOfType(types[i..], table) ==
      (if TypeIn(types[i].1, table) then [types[i].0] else []) + IdsOfType(types[i + 1..], table)
  {
    assert types[i..][1..] == types[i + 1..];
  }

  lemma TextfieldClassified()
    ensures !TypeIn(Str("textfield"), PiiElementTypes) && TypeIn(Str("textfield"), PotentialPiiElementTypes) && !TypeIn(Str("textfield"), PartPiiElementTypes)
  {
  }

  lemma EmailClassified()
    ensures TypeIn(Str("email"), PiiElementTypes) && !TypeIn(Str("email"), PotentialPiiElementTypes) && !TypeIn(Str("email"), PartPiiElementTypes)
  {
  }

  lemma TextareaClassified()
    ensures !TypeIn(Str("textarea"), PiiElementTypes) && !TypeIn(Str("textarea"), PotentialPiiElementTypes) && TypeIn(Str("textarea"), PartPiiElementTypes)
  {
  }

  lemma TelClassified()
    ensures TypeIn(Str("tel"), PiiElementTypes) && !TypeIn(Str("tel"), PotentialPiiElementTypes) && !TypeIn(Str("tel"), PartPiiElementTypes)
  {
  }

  lemma AddressClassified()
    ensures TypeIn(Str("address"), PiiElementTypes) && !TypeIn(Str("address"), PotentialPiiElementTypes) && !TypeIn(Str("address"), PartPiiElementTypes)
  {
  }

  lemma NumberClassified()
    ensures TypeIn(Str("number"), PiiElementTypes) && !TypeIn(Str("number"), PotentialPiiElementTypes) && !TypeIn(Str("number"), PartPiiElementTypes)
  {
  }

  lemma RadiosClassified()
    ensures !TypeIn(Str("radios"), PiiElementTypes) && TypeIn(Str("radios"), PotentialPiiElementTypes) && !TypeIn(Str("radios"), PartPiiElementTypes)
  {
  }

  lemma CheckboxesClassified()
    ensures !TypeIn(Str("checkboxes"), PiiElementTypes) && TypeIn(Str("checkboxes"), PotentialPiiElementTypes) && !TypeIn(Str("checkboxes"), PartPiiElementTypes)
  {
  }

  lemma LocalgovFormsDateClassified()
    ensures !TypeIn(Str("localgov_forms_date"), PiiElementTypes) && TypeIn(Str("localgov_forms_date"), PotentialPiiElementTypes) && !TypeIn(Str("localgov_forms_date"), PartPiiElementTypes)
  {
  }

  lemma SamplePiiIdsTail(types: seq<(string, Value)>)
    requires SampleTypes(types)
    ensures IdsOfType(types[6..], PiiElementTypes) == ["location", "cars"]
  {
    AddressClassified();
    NumberClassified();
    RadiosClassified();
    CheckboxesClassified();
    LocalgovFormsDateClassified();
    assert types[11..] == [];
    IdsOfTypeStep(types, PiiElementTypes, 10);
    IdsOfTypeStep(types, PiiElementTypes, 9);
    IdsOfTypeStep(types, PiiElementTypes, 8);
    IdsOfTypeStep(types, PiiElementTypes, 7);
    IdsOfTypeStep(types, PiiElementTypes, 6);
  }

  lemma SamplePiiIds(types: seq<(string, Value)>)
    requires SampleTypes(types)
    ensures IdsOfType(types[0..], PiiElementTypes) == ["email", "work_number", "location", "cars"]
  {
    TextfieldClassified();
    EmailClassified();
    TextareaClassified();
    TelClassified();
    SamplePiiIdsTail(types);
    IdsOfTypeStep(types, PiiElementTypes, 5);
    IdsOfTypeStep(types, PiiElementTypes, 4);
    IdsOfTypeStep(types, PiiElementTypes, 3);
    IdsOfTypeStep(types, PiiElementTypes, 2);
    IdsOfTypeStep(types, PiiElementTypes, 1);
    IdsOfTypeStep(types, PiiElementTypes, 0);
  }

  lemma SamplePotentialIdsTail(types: seq<(string, Value)>)
    requires SampleTypes(types)
    ensures IdsOfType(types[6..], PotentialPiiElementTypes) == ["gender", "ethnicity", "date_of_birth"]
  {
    AddressClassified();
    NumberClassified();
    RadiosClassified();
    CheckboxesClassified();
    LocalgovFormsDateClassified();
    assert types[11..] == [];
    IdsOfTypeStep(types, PotentialPiiElementTypes, 10);
    IdsOfTypeStep(types, PotentialPiiElementTypes, 9);
    IdsOfTypeStep(types, PotentialPiiElementTypes, 8);
    IdsOfTypeStep(types, PotentialPiiElementTypes, 7);
    IdsOfTypeStep(types, PotentialPiiElementTypes, 6);
  }

  lemma SamplePotentialIds(types: seq<(string, Value)>)
    requires SampleTypes(types)
    ensures IdsOfType(types[0..], PotentialPiiElementTypes) == ["name", "subject", "nino", "gender", "ethnicity", "date_of_birth"]
  {
    TextfieldClassified();
    EmailClassified();
    TextareaClassified();
    TelClassified();
    SamplePotentialIdsTail(types);
    IdsOfTypeStep(types, PotentialPiiElementTypes, 5);
    IdsOfTypeStep(types, PotentialPiiElementTypes, 4);
    IdsOfTypeStep(types, PotentialPiiElementTypes, 3);
    IdsOfTypeStep(types, PotentialPiiElementTypes, 2);
    IdsOfTypeStep(types, PotentialPiiElementTypes, 1);
    IdsOfTypeStep(types, PotentialPiiElementTypes, 0);
  }

  lemma SamplePartIdsTail(types: seq<(string, Value)>)
    requires SampleTypes(types)
    ensures IdsOfType(types[6..], PartPiiElementTypes) == []
  {
    AddressClassified();
    NumberClassified();
    RadiosClassified();
    CheckboxesClassified();
    LocalgovFormsDateClassified();
    assert types[11..] == [];
    IdsOfTypeStep(types, PartPiiElementTypes, 10);
    IdsOfTypeStep(types, PartPiiElementTypes, 9);
    IdsOfTypeStep(types, PartPiiElementTypes, 8);
    IdsOfTypeStep(types, PartPiiElementTypes, 7);
    IdsOfTypeStep(types, PartPiiElementTypes, 6);
  }

  lemma SamplePartIds(types: seq<(string, Value)>)
    requires SampleTypes(types)
    ensures IdsOfType(types[0..], PartPiiElementTypes) == ["message"]
  {
    TextfieldClassified();
    EmailClassified();
    TextareaClassified();
    TelClassified();
    SamplePartIdsTail(types);
    IdsOfTypeStep(types, PartPiiElementTypes, 5);
    IdsOfTypeStep(types, PartPiiElementTypes, 4);
    IdsOfTypeStep(types, PartPiiElementTypes, 3);
    IdsOfTypeStep(types, PartPiiElementTypes, 2);
    IdsOfTypeStep(types, PartPiiElementTypes, 1);
    IdsOfTypeStep(types, PartPiiElementTypes, 0);
  }

  /** The element list of the redactor's unit test, in form order. */
  predicate IsSampleForm(form: ElementDefs)
  {
    |form| == 11 && SampleFormFront(form) && SampleFormBack(form)
  }

  predicate SampleFormFront(form: ElementDefs)
    requires |form| == 11
  {
    form[0] == ("name", Def("textfield")) &&
    form[1] == ("email", Def("email")) &&
    form[2] == ("subject", Def("textfield")) &&
    form[3] == ("message", Def("textarea")) &&
    form[4] == ("work_number", Def("tel")) &&
    form[5] == ("nino", Def("textfield"))
  }

  predicate SampleFormBack(form: ElementDefs)
    requires |form| == 11
  {
    form[6] == ("location", Def("address")) &&
    form[7] == ("cars", Def("number")) &&
    form[8] == ("gender", Def("radios")) &&
    form[9] == ("ethnicity", Def("checkboxes")) &&
    form[10] == ("date_of_birth", Def("localgov_forms_date"))
  }

  lemma SampleTypesFrontListed(form: ElementDefs)
    requires IsSampleForm(form)
    ensures |ListElemsAndTypes(form)| == 11 && SampleTypesFront(ListElemsAndTypes(form))
  {
    ListElemsAndTypesValues(form);
    TypeOfDef("textfield");
    TypeOfDef("email");
    TypeOfDef("textarea");
    TypeOfDef("tel");
  }

  lemma SampleTypesBackListed(form: ElementDefs)
    requires IsSampleForm(form)
    ensures |ListElemsAndTypes(form)| == 11 && SampleTypesBack(ListElemsAndTypes(form))
  {
    ListElemsAndTypesValues(form);
    TypeOfDef("address");
    TypeOfDef("number");
    TypeOfDef("radios");
    TypeOfDef("checkboxes");
    TypeOfDef("localgov_forms_date");
  }


  lemma GrepGuessedCons(x: string, rest: seq<string>)
    ensures GrepGuessed([x] + rest) == if GuessedPii(x) then [x] + GrepGuessed(rest) else GrepGuessed(rest)
  {
    assert ([x] + rest)[1..] == rest;
  }

  lemma GrepSix(a: string, b: string, c: string, d: string, e: string, f: string)
    requires GuessedPii(a) && !GuessedPii(b) && GuessedPii(c) && !GuessedPii(d) && !GuessedPii(e) && GuessedPii(f)
    ensures GrepGuessed([a, b, c, d, e, f]) == [a, c, f]
  {
    GrepGuessedCons(f, []);
    GrepGuessedCons(e, [f]);
    GrepGuessedCons(d, [e, f]);
    GrepGuessedCons(c, [d, e, f]);
    GrepGuessedCons(b, [c, d, e, f]);
    GrepGuessedCons(a, [b, c, d, e, f]);
  }

  lemma NameGuessed() ensures GuessedPii("name") { PrefixGuessed("name", 0); }
  lemma NinoGuessed() ensures GuessedPii("nino") { PrefixGuessed("nino", 6); }
  lemma DateOfBirthGuessed() ensures GuessedPii("date_of_birth") { PrefixGuessed("date_of_birth", 4); }
  lemma SubjectNotGuessed() ensures !GuessedPii("subject") { NoMarkerNotGuessed("subject"); }
  lemma GenderNotGuessed() ensures !GuessedPii("gender") { NoMarkerNotGuessed("gender"); }
  lemma EthnicityNotGuessed() ensures !GuessedPii("ethnicity") { NoMarkerNotGuessed("ethnicity"); }

  /**
   * Of the potential-PII elements, the pattern picks `name`, `nino` and
   * `date_of_birth`; `gender` and `ethnicity` hold none of its alternatives.
   */
  lemma SampleGuessed(ids: seq<string>)
    requires ids == ["name", "subject", "nino", "gender", "ethnicity", "date_of_birth"]
    ensures GrepGuessed(ids) == ["name", "nino", "date_of_birth"]
  {
    NameGuessed();
    SubjectNotGuessed();
    NinoGuessed();
    GenderNotGuessed();
    EthnicityNotGuessed();
    DateOfBirthGuessed();
    GrepSix("name", "subject", "nino", "gender", "ethnicity", "date_of_birth");
  }

  /**
   * On the unit test's form the certain-PII elements come first, then the
   * guessed ones; the textarea alone is partly redacted.
   */
  lemma SampleFormElemsToRedact(form: ElementDefs)
    requires IsSampleForm(form)
    ensures FindElemsToRedact(form) ==
      ElemsToRedact(["email", "work_number", "location", "cars", "name", "nino", "date_of_birth"], ["message"])
  {
    var types := ListElemsAndTypes(form);
    SampleTypesFrontListed(form);
    SampleTypesBackListed(form);
    assert types[0..] == types;
    SamplePiiIds(types);
    SamplePotentialIds(types);
    SamplePartIds(types);
    SampleGuessed(IdsOfType(types, PotentialPiiElementTypes));
  }
}
