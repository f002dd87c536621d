/**
 * The Liberty Create file-token expander: every quoted
 * `[webform_submission:values:ID:file_details_for_liberty_create_api]`
 * pseudo-token in a remote-post configuration is replaced by one inline YAML
 * flow mapping per uploaded file of element ID.
 *
 * A webform is a map from element id to its element array (a missing id is
 * what `getElement` answers with NULL); the submission's element data is a
 * map from element id to value. Where PHP's strict types or `count()` throw
 * a TypeError, the functions here return None.
 */
module PrepareFileTokens {
  import opened Php

  /** `EMPTY_FILE_LABEL`. */
  const EmptyFileLabel: string := "N/A"

  const TokenPrefix: string := "\"[webform_submission:values:"
  const TokenSuffix: string := ":file_details_for_liberty_create_api]\""

  /** The quoted pseudo-token for file element `id`. */
  function PseudoToken(id: string): string
  {
    TokenPrefix + id + TokenSuffix
  }

  /** What `\w+` accepts: a non-empty run of word characters. */
  predicate IsElementId(id: string)
  {
    |id| > 0 && forall i :: 0 <= i < |id| ==> IsWordChar(id[i])
  }

  /** The length of the run of word characters at the head of `s`. */
  function WordRun(s: string): (n: nat)
    ensures n <= |s|
    ensures forall i :: 0 <= i < n ==> IsWordChar(s[i])
    ensures n < |s| ==> !IsWordChar(s[n])
  {
    if s == [] || !IsWordChar(s[0]) then 0 else 1 + WordRun(s[1..])
  }

  /**
   * The `\w+` between `prefix` and `suffix` at the head of `s`, if that is
   * how `s` starts. When the suffix starts with a character `\w` refuses,
   * the greedy run either stops right before the suffix or the match fails.
   */
  function MatchToken(prefix: string, suffix: string, s: string): (r: Option<string>)
    ensures r.Some? ==> IsElementId(r.value)
  {
    if !StartsWith(s, prefix) then None
    else
      var n := WordRun(s[|prefix|..]);
      if n > 0 && StartsWith(s[|prefix| + n..], suffix) then Some(s[|prefix|..|prefix| + n])
      else None
  }

  lemma MatchTokenSound(prefix: string, suffix: string, s: string)
    requires MatchToken(prefix, suffix, s).Some?
    ensures OccursAt(prefix + MatchToken(prefix, suffix, s).value + suffix, s, 0)
  {
    var p := |prefix|;
    var n := |MatchToken(prefix, suffix, s).value|;
    assert s[..p + n + |suffix|] == s[..p] + s[p..p + n] + s[p + n..][..|suffix|];
  }

  lemma MatchTokenComplete(prefix: string, suffix: string, id: string, rest: string)
    requires IsElementId(id) && suffix != [] && !IsWordChar(suffix[0])
    ensures MatchToken(prefix, suffix, prefix + id + suffix + rest) == Some(id)
  {
    var s := prefix + id + suffix + rest;
    var p := |prefix|;
    var after := suffix + rest;
    assert s == prefix + (id + after);
    assert s[..p] == prefix;
    assert s[p..] == id + after;
    WordRunPrefix(id, after);
    assert s[p + |id|..] == after;
    assert after[..|suffix|] == suffix;
    assert s[p..p + |id|] == id;
  }

  /** The id of the pseudo-token at the head of `s`, if one starts there. */
  function TokenAt(s: string): (r: Option<string>)
    ensures r.Some? ==> IsElementId(r.value)
  {
    MatchToken(TokenPrefix, TokenSuffix, s)
  }

  /** A pseudo-token that the scan sees at the head of `s` is really there. */
  lemma TokenAtSound(s: string)
    requires TokenAt(s).Some?
    ensures OccursAt(PseudoToken(TokenAt(s).value), s, 0)
  {
    MatchTokenSound(TokenPrefix, TokenSuffix, s);
  }

  /** A string that starts with the pseudo-token of a valid id yields that id. */
  lemma TokenAtComplete(id: string, rest: string)
    requires IsElementId(id)
    ensures TokenAt(PseudoToken(id) + rest) == Some(id)
  {
    assert TokenSuffix[0] == ':';
    MatchTokenComplete(TokenPrefix, TokenSuffix, id, rest);
  }

  lemma {:induction false} WordRunPrefix(id: string, rest: string)
    requires forall i :: 0 <= i < |id| ==> IsWordChar(id[i])
    requires rest != [] && !IsWordChar(rest[0])
    ensures WordRun(id + rest) == |id|
  {
    if id != [] {
      assert (id + rest)[1..] == id[1..] + rest;
      WordRunPrefix(id[1..], rest);
    } else {
      assert id + rest == rest;
    }
  }

  /**
   * `preg_match_all` of the pseudo-token pattern: the ids of the matches,
   * left to right, scanning on after the end of each match.
   */
  function FileElementIds(s: string): (r: seq<string>)
    ensures forall k :: 0 <= k < |r| ==> IsElementId(r[k])
    decreases |s|
  {
    if s == [] then []
    else
      match TokenAt(s)
      case Some(id) => [id] + FileElementIds(s[|PseudoToken(id)|..])
      case None => FileElementIds(s[1..])
  }

  /** No pseudo-token starts anywhere in `s`. */
  predicate NoPseudoToken(s: string)
    decreases |s|
  {
    s == [] || (TokenAt(s).None? && NoPseudoToken(s[1..]))
  }

  /** `determineAllFileElementId`: NULL when nothing matched, else the ids in order. */
  function DetermineAllFileElementId(s: string): Option<seq<string>>
  {
    var ids := FileElementIds(s);
    if ids == [] then None else Some(ids)
  }

  /** NULL exactly when no pseudo-token occurs in the string. */
  lemma {:induction false} DetermineAllNone(s: string)
    ensures DetermineAllFileElementId(s).None? <==> NoPseudoToken(s)
    decreases |s|
  {
    if s != [] && TokenAt(s).None? {
      DetermineAllNone(s[1..]);
    }
  }

  /** The scan sees no pseudo-token exactly when no element's pseudo-token occurs in the string. */
  lemma NoPseudoTokenIff(s: string)
    ensures NoPseudoToken(s) <==> forall id :: IsElementId(id) ==> !Occurs(PseudoToken(id), s)
  {
    forall id | IsElementId(id) && Occurs(PseudoToken(id), s)
      ensures !NoPseudoToken(s)
    {
      OccurrenceIsSeen(id, s);
    }
    if !NoPseudoToken(s) {
      SeenIsOccurrence(s);
    }
  }

  lemma {:induction false} OccurrenceIsSeen(id: string, s: string)
    requires IsElementId(id) && Occurs(PseudoToken(id), s)
    ensures !NoPseudoToken(s)
    decreases |s|
  {
    var t := PseudoToken(id);
    var i :| 0 <= i <= |s| - |t| && OccursAt(t, s, i);
    if i == 0 {
      assert s == t + s[|t|..];
      TokenAtComplete(id, s[|t|..]);
    } else {
      assert s[1..][i - 1..i - 1 + |t|] == s[i..i + |t|];
      assert OccursAt(t, s[1..], i - 1);
      OccurrenceIsSeen(id, s[1..]);
    }
  }

  lemma {:induction false} SeenIsOccurrence(s: string)
    requires !NoPseudoToken(s)
    ensures exists id :: IsElementId(id) && Occurs(PseudoToken(id), s)
    decreases |s|
  {
    if TokenAt(s).Some? {
      TokenAtSound(s);
    } else {
      SeenIsOccurrence(s[1..]);
      var id :| IsElementId(id) && Occurs(PseudoToken(id), s[1..]);
      OccursShift(PseudoToken(id), s, 1);
    }
  }

  /** Every id found names a pseudo-token that occurs in the string. */
  lemma {:induction false} DetermineAllSound(s: string)
    ensures forall id :: id in FileElementIds(s) ==> IsElementId(id) && Occurs(PseudoToken(id), s)
    decreases |s|
  {
    if s != [] {
      var skip: nat := if TokenAt(s).Some? then |PseudoToken(TokenAt(s).value)| else 1;
      assert FileElementIds(s) == (if TokenAt(s).Some? then [TokenAt(s).value] else []) + FileElementIds(s[skip..]);
      DetermineAllSound(s[skip..]);
      forall id | id in FileElementIds(s[skip..])
        ensures Occurs(PseudoToken(id), s)
      {
        OccursShift(PseudoToken(id), s, skip);
      }
      if TokenAt(s).Some? {
        TokenAtSound(s);
      }
    }
  }

  lemma OccursShift(needle: string, s: string, skip: nat)
    requires skip <= |s| && Occurs(needle, s[skip..])
    ensures Occurs(needle, s)
  {
    var i :| 0 <= i <= |s| - skip - |needle| && OccursAt(needle, s[skip..], i);
    assert s[skip + i..skip + i + |needle|] == s[skip..][i..i + |needle|];
    assert OccursAt(needle, s, skip + i);
  }

  /** A configuration that starts with a pseudo-token yields its id first. */
  lemma DetermineAllFirst(id: string, rest: string)
    requires IsElementId(id)
    ensures DetermineAllFileElementId(PseudoToken(id) + rest) == Some([id] + FileElementIds(rest))
  {
    var s := PseudoToken(id) + rest;
    TokenAtComplete(id, rest);
    assert s[|PseudoToken(id)|..] == rest;
  }

  // ---------------------------------------------------------------------
  // Inline YAML

  /** The title as the inside of a YAML single-quoted scalar: each `'` doubled. */
  function Escape(title: string): string
  {
    StrReplace("'", "''", title)
  }

  /**
   * Reading the inside of a single-quoted scalar (section 7.3.2 of YAML 1.2):
   * `''` stands for one quote; a lone quote would end the scalar, so the
   * text is refused.
   */
  function Unquote(e: string): Option<string>
    decreases |e|
  {
    if e == [] then Some([])
    else if e[0] == '\'' then
      if |e| >= 2 && e[1] == '\'' then
        match Unquote(e[2..]) case None => None case Some(t) => Some(['\''] + t)
      else None
    else
      match Unquote(e[1..]) case None => None case Some(t) => Some([e[0]] + t)
  }

  /** The escaped title reads back as the title: it is a well-formed single-quoted scalar body. */
  lemma {:induction false} EscapeRoundTrip(title: string)
    ensures Unquote(Escape(title)) == Some(title)
  {
    if title != [] {
      EscapeRoundTrip(title[1..]);
      var rest := Escape(title[1..]);
      if title[0] == '\'' {
        assert title[..1] == "'";
        assert Escape(title) == "''" + rest;
        assert ("''" + rest)[2..] == rest;
      } else {
        assert title[..1] != "'";
        assert Escape(title) == [title[0]] + rest;
        assert ([title[0]] + rest)[1..] == rest;
      }
      assert title == [title[0]] + title[1..];
    }
  }

  /** The strings of `parts`, one after the other. */
  function Concat(parts: seq<string>): string
  {
    if parts == [] then "" else parts[0] + Concat(parts[1..])
  }

  // The fixed text of a flow mapping, between the element id, the upload index and the title.
  const FileOpen: string := "{file: {filename: \"[webform_submission:values:"
  const NameClose: string := ":name]\", is_base64: true, content: \"[webform_submission:values:"
  const DataClose: string := ":data]\"}, filename: \"[webform_submission:values:"
  const DescriptionOpen: string := ":name]\", description: '"
  const EntryClose: string := "'}"

  /** The flow mapping for upload `i` of element `id`, with the escaped title as description. */
  function InlineEntry(id: string, i: nat, escaped: string): string
  {
    var n := IntToString(i);
    Concat([FileOpen, id, ":", n, NameClose, id, ":", n, DataClose, id, ":", n, DescriptionOpen, escaped, EntryClose])
  }

  /** The first `n` flow mappings, upload 0 first. */
  function InlineEntries(n: nat, id: string, title: string): (r: seq<string>)
    ensures |r| == n
  {
    if n == 0 then [] else InlineEntries(n - 1, id, title) + [InlineEntry(id, n - 1, Escape(title))]
  }

  /** Entry `i` is the flow mapping for upload `i`: its `name` and `data` tokens both use index `i`. */
  lemma {:induction false} InlineEntriesAt(n: nat, id: string, title: string)
    ensures forall i :: 0 <= i < n ==> InlineEntries(n, id, title)[i] == InlineEntry(id, i, Escape(title))
  {
    if n > 0 {
      InlineEntriesAt(n - 1, id, title);
      assert forall i :: 0 <= i < n - 1 ==> InlineEntries(n, id, title)[i] == InlineEntries(n - 1, id, title)[i];
    }
  }

  /** What `prepareInlineTokens` yields: one flow mapping per file, joined by `, `. */
  function InlineTokens(fileCount: int, id: string, title: string): string
  {
    Join(", ", InlineEntries(if fileCount > 0 then fileCount else 0, id, title))
  }

  /** `prepareInlineTokens`: one flow mapping per file, in index order, joined by `, `. */
  method PrepareInlineTokens(fileCount: int, id: string, title: string) returns (r: string)
    ensures r == InlineTokens(fileCount, id, title)
  {
    var tokens: seq<string> := [];
    var i: nat := 0;
    ghost var n: nat := if fileCount > 0 then fileCount else 0;
    while i < fileCount
      invariant i <= n
      invariant tokens == InlineEntries(i, id, title)
    {
      var escaped := StrReplace("'", "''", title);
      assert escaped == Escape(title);
      tokens := tokens + [InlineEntry(id, i, escaped)];
      i := i + 1;
    }
    r := Join(", ", tokens);
  }

  /** No files, no flow mappings: the pseudo-token expands to the empty string. */
  lemma InlineTokensNone(fileCount: int, id: string, title: string)
    requires fileCount <= 0
    ensures InlineTokens(fileCount, id, title) == ""
  {
  }

  /** One file: exactly the flow mapping for upload 0. */
  lemma InlineTokensOne(id: string, title: string)
    ensures InlineTokens(1, id, title) == InlineEntry(id, 0, Escape(title))
  {
    assert InlineEntries(1, id, title) == [InlineEntry(id, 0, Escape(title))];
  }

  // ---------------------------------------------------------------------
  // Expansion

  /** `countUploadedFiles`: falsy data counts 0, an array its entries; `count()` of a scalar throws. */
  function CountUploadedFiles(data: Value): (r: Option<nat>)
    ensures r.Some? <==> !Truthy(data) || data.Arr?
    ensures r.Some? && r.value > 0 <==> data.Arr? && |data.entries| > 0
    ensures data.Arr? ==> r == Some(|data.entries|)
  {
    if !Truthy(data) then Some(0)
    else if data.Arr? then Some(|data.entries|)
    else None
  }

  /** `getElementData($id)`: NULL for an element without data. */
  function ElementData(data: map<string, Value>, id: string): Value
  {
    if id in data then data[id] else Null
  }

  /**
   * `expandPseudoToken`: every occurrence of the element's quoted
   * pseudo-token replaced by its inline flow mappings; None when counting
   * the files throws.
   */
  function ExpandPseudoToken(id: string, title: string, s: string, data: map<string, Value>): Option<string>
  {
    match CountUploadedFiles(ElementData(data, id))
    case None => None
    case Some(n) => Some(StrReplace(PseudoToken(id), InlineTokens(n, id, title), s))
  }

  /**
   * Only the pseudo-token changes: cut the string at its occurrences and
   * the pieces between them come back unchanged, glued by the flow mappings.
   */
  lemma ExpandPseudoTokenPieces(id: string, title: string, s: string, data: map<string, Value>)
    requires ExpandPseudoToken(id, title, s, data).Some?
    ensures var pieces := Explode(PseudoToken(id), s);
      Join(PseudoToken(id), pieces) == s &&
      ExpandPseudoToken(id, title, s, data).value == Join(InlineTokens(CountUploadedFiles(ElementData(data, id)).value, id, title), pieces)
  {
    var n := CountUploadedFiles(ElementData(data, id)).value;
    ExplodeJoinRoundTrip(PseudoToken(id), s);
    StrReplaceIsJoinOfExplode(PseudoToken(id), InlineTokens(n, id, title), s);
  }

  /** A string without the pseudo-token is left as it is. */
  lemma ExpandPseudoTokenAbsent(id: string, title: string, s: string, data: map<string, Value>)
    requires !Occurs(PseudoToken(id), s) && ExpandPseudoToken(id, title, s, data).Some?
    ensures ExpandPseudoToken(id, title, s, data) == Some(s)
  {
    StrReplaceAbsent(PseudoToken(id), InlineTokens(CountUploadedFiles(ElementData(data, id)).value, id, title), s);
  }

  /** An element without uploads has its pseudo-token simply deleted. */
  lemma ExpandWithoutFiles(id: string, title: string, s: string, data: map<string, Value>)
    requires !Truthy(ElementData(data, id))
    ensures ExpandPseudoToken(id, title, s, data) == Some(StrReplace(PseudoToken(id), "", s))
  {
  }

  /** `$file_elem['#title'] ?? 'N/A'`, which must be a string under strict types. */
  function Label(elem: Entries): Option<string>
  {
    match Lookup(elem, K("#title"))
    case None => Some(EmptyFileLabel)
    case Some(Null) => Some(EmptyFileLabel)
    case Some(Str(t)) => Some(t)
    case Some(_) => None
  }

  /** Whether `getElement($id)` answers with a non-empty element. */
  predicate Named(webform: map<string, Entries>, id: string)
  {
    id in webform && webform[id] != []
  }

  /** The loop of `expandAllPseudoTokens` over `ids`, from the working string `s`. */
  function ExpandEach(ids: seq<string>, webform: map<string, Entries>, data: map<string, Value>, s: string): Option<string>
  {
    if ids == [] then Some(s)
    else if !Named(webform, ids[0]) then ExpandEach(ids[1..], webform, data, s)
    else
      match Label(webform[ids[0]])
      case None => None
      case Some(title) =>
        match ExpandPseudoToken(ids[0], title, s, data)
        case None => None
        case Some(next) => ExpandEach(ids[1..], webform, data, next)
  }

  /** `expandAllPseudoTokens` as a whole. */
  function ExpandAll(s: string, webform: map<string, Entries>, data: map<string, Value>): Option<string>
  {
    match DetermineAllFileElementId(s)
    case None => Some(s)
    case Some(ids) => ExpandEach(ids, webform, data, s)
  }

  /** `expandAllPseudoTokens`: each found id that names an element has its pseudo-token expanded, in order. */
  method ExpandAllPseudoTokens(customData: string, webform: map<string, Entries>, data: map<string, Value>) returns (r: Option<string>)
    ensures r == ExpandAll(customData, webform, data)
  {
    var ids := DetermineAllFileElementId(customData);
    if ids.None? {
      return Some(customData);
    }
    var list := ids.value;
    var working := customData;
    var i := 0;
    while i < |list|
      invariant 0 <= i <= |list|
      invariant ExpandEach(list[i..], webform, data, working) == ExpandAll(customData, webform, data)
    {
      assert list[i..][1..] == list[i + 1..];
      var id := list[i];
      if id !in webform || webform[id] == [] {
        i := i + 1;
        continue;
      }
      var title := Label(webform[id]);
      if title.None? {
        return None;
      }
      var expanded := ExpandPseudoToken(id, title.value, working, data);
      if expanded.None? {
        return None;
      }
      working := expanded.value;
      i := i + 1;
    }
    r := Some(working);
  }

  /** Without a pseudo-token the configuration comes back unchanged. */
  lemma ExpandAllNoToken(s: string, webform: map<string, Entries>, data: map<string, Value>)
    requires NoPseudoToken(s)
    ensures ExpandAll(s, webform, data) == Some(s)
  {
    DetermineAllNone(s);
  }

  /** Ids that name no element are skipped: expanding them changes nothing. */
  lemma {:induction false} ExpandEachSkips(ids: seq<string>, webform: map<string, Entries>, data: map<string, Value>, s: string)
    requires forall k :: 0 <= k < |ids| ==> !Named(webform, ids[k])
    ensures ExpandEach(ids, webform, data, s) == Some(s)
  {
    if ids != [] {
      ExpandEachSkips(ids[1..], webform, data, s);
    }
  }

  /** The ids that name an element, in order. */
  function NamedIds(ids: seq<string>, webform: map<string, Entries>): (r: seq<string>)
    ensures forall id :: id in r <==> id in ids && Named(webform, id)
  {
    if ids == [] then []
    else if Named(webform, ids[0]) then [ids[0]] + NamedIds(ids[1..], webform)
    else NamedIds(ids[1..], webform)
  }

  /** Expanding every found id is expanding just the ones that name an element. */
  lemma {:induction false} ExpandEachNamed(ids: seq<string>, webform: map<string, Entries>, data: map<string, Value>, s: string)
    ensures ExpandEach(ids, webform, data, s) == ExpandEach(NamedIds(ids, webform), webform, data, s)
  {
    if ids != [] {
      var named := NamedIds(ids, webform);
      if Named(webform, ids[0]) {
        assert named[1..] == NamedIds(ids[1..], webform);
        forall next: string
          ensures ExpandEach(ids[1..], webform, data, next) == ExpandEach(named[1..], webform, data, next)
        {
          ExpandEachNamed(ids[1..], webform, data, next);
        }
      } else {
        ExpandEachNamed(ids[1..], webform, data, s);
      }
    }
  }
}
