/** The learning-outcome table rewrite: each row's comma-separated list of promoted
    skill and knowledge IDs becomes two lists of ESCO URIs, looked up in the skills
    and the knowledge index. IDs starting with 'S' are skills, with 'K' knowledge;
    other pieces are ignored, and an ID missing from its index stops the run. */
module EscoUriMapping {
  import opened Wrappers
  import opened Sequences

  /** One input row: module title, learning outcome, promoted skills and knowledge.
      pandas reads an empty (or "NA") promoted cell as a float NaN, which is `None` here. */
  datatype Row = Row(moduleTitle: string, learningOutcome: string, promoted: Option<string>)

  datatype OutRow = OutRow(moduleTitle: string, learningOutcome: string, promotedSkill: string, promotedKnowledge: string)

  /** The `KeyError` a lookup of an absent ID raises, or the `AttributeError` that
      `.split` raises on the NaN of an empty promoted cell. */
  datatype MapError = KeyError(id: string) | MissingCell

  // ---------------------------------------------------------------------------
  // Python's `str.split(',')` and `str.strip()`.

  /** `s.split(sep)`: the pieces between separators, empty pieces included. */
  function Split(s: string, sep: char): (r: seq<string>)
    ensures |r| >= 1
  {
    if s == [] then [""]
    else
      var rest := Split(s[1..], sep);
      if s[0] == sep then [""] + rest else [[s[0]] + rest[0]] + rest[1..]
  }

  /** The characters `str.isspace()` holds for. */
  predicate IsSpace(c: char) {
    || ('\t' <= c <= '\r') || ('\U{1C}' <= c <= ' ')
    || c == '\U{85}' || c == '\U{A0}' || c == '\U{1680}' || ('\U{2000}' <= c <= '\U{200A}')
    || c == '\U{2028}' || c == '\U{2029}' || c == '\U{202F}' || c == '\U{205F}' || c == '\U{3000}'
  }

  function TrimStart(s: string): string {
    if s != [] && IsSpace(s[0]) then TrimStart(s[1..]) else s
  }

  function TrimEnd(s: string): string {
    if s != [] && IsSpace(s[|s| - 1]) then TrimEnd(s[..|s| - 1]) else s
  }

  /** `s.strip()`. */
  function Strip(s: string): string {
    TrimEnd(TrimStart(s))
  }

  // ---------------------------------------------------------------------------
  // The per-row mapping.

  predicate IsSkillId(id: string) { |id| > 0 && id[0] == 'S' }
  predicate IsKnowledgeId(id: string) { |id| > 0 && id[0] == 'K' }

  /** A piece whose lookup fails: an S-ID missing from the skills index or a K-ID
      missing from the knowledge index. */
  predicate Unresolvable(id: string, skillsUri: map<string, string>, knowledgeUri: map<string, string>) {
    (IsSkillId(id) && id !in skillsUri) || (IsKnowledgeId(id) && id !in knowledgeUri)
  }

  /** The promoted skills and knowledge URIs of a row's pieces, in piece order. */
  datatype Promoted = Promoted(skills: seq<string>, knowledge: seq<string>)

  /** One turn of the inner loop: the stripped piece is looked up in its index, if it is an ID. */
  function Step(p: Promoted, piece: string, skillsUri: map<string, string>, knowledgeUri: map<string, string>): Result<Promoted, MapError> {
    var id := Strip(piece);
    if IsSkillId(id) then
      if id in skillsUri then Ok(Promoted(p.skills + [skillsUri[id]], p.knowledge)) else Err(KeyError(id))
    else if IsKnowledgeId(id) then
      if id in knowledgeUri then Ok(Promoted(p.skills, p.knowledge + [knowledgeUri[id]])) else Err(KeyError(id))
    else Ok(p)
  }

  function Resolve(pieces: seq<string>, skillsUri: map<string, string>, knowledgeUri: map<string, string>): Result<Promoted, MapError> {
    if pieces == [] then Ok(Promoted([], []))
    else
      match Resolve(pieces[..|pieces| - 1], skillsUri, knowledgeUri)
      case Err(e) => Err(e)
      case Ok(p) => Step(p, pieces[|pieces| - 1], skillsUri, knowledgeUri)
  }

  /** The output row for one input row. */
  function RowOf(row: Row, skillsUri: map<string, string>, knowledgeUri: map<string, string>): Result<OutRow, MapError> {
    match row.promoted
    case None => Err(MissingCell)
    case Some(text) =>
      match Resolve(Split(text, ','), skillsUri, knowledgeUri)
      case Err(e) => Err(e)
      case Ok(p) => Ok(OutRow(row.moduleTitle, row.learningOutcome, Join(p.skills, ", "), Join(p.knowledge, ", ")))
  }

  /** The output table, or the first lookup error, which ends the script. */
  function RowsOf(rows: seq<Row>, skillsUri: map<string, string>, knowledgeUri: map<string, string>): Result<seq<OutRow>, MapError> {
    if rows == [] then Ok([])
    else
      match RowsOf(rows[..|rows| - 1], skillsUri, knowledgeUri)
      case Err(e) => Err(e)
      case Ok(out) =>
        match RowOf(rows[|rows| - 1], skillsUri, knowledgeUri)
        case Err(e) => Err(e)
        case Ok(r) => Ok(out + [r])
  }

  method MapRow(row: Row, skillsUri: map<string, string>, knowledgeUri: map<string, string>) returns (r: Result<OutRow, MapError>)
    ensures r == RowOf(row, skillsUri, knowledgeUri)
  {
    if row.promoted.None? {
      return Err(MissingCell);
    }
    var pieces := Split(row.promoted.value, ',');
    var promotedSkills: seq<string> := [];
    var promotedKnowledge: seq<string> := [];
    for i := 0 to |pieces|
      invariant Resolve(pieces[..i], skillsUri, knowledgeUri) == Ok(Promoted(promotedSkills, promotedKnowledge))
    {
      assert pieces[..i + 1][..i] == pieces[..i];
      var item := Strip(pieces[i]);
      if IsSkillId(item) {
        if item !in skillsUri {
          ResolveErrPersists(pieces, i + 1, skillsUri, knowledgeUri);
          return Err(KeyError(item));
        }
        promotedSkills := promotedSkills + [skillsUri[item]];
      } else if IsKnowledgeId(item) {
        if item !in knowledgeUri {
          ResolveErrPersists(pieces, i + 1, skillsUri, knowledgeUri);
          return Err(KeyError(item));
        }
        promotedKnowledge := promotedKnowledge + [knowledgeUri[item]];
      }
    }
    assert pieces[..|pieces|] == pieces;
    r := Ok(OutRow(row.moduleTitle, row.learningOutcome, Join(promotedSkills, ", "), Join(promotedKnowledge, ", ")));
  }

  method MapRows(rows: seq<Row>, skillsUri: map<string, string>, knowledgeUri: map<string, string>) returns (r: Result<seq<OutRow>, MapError>)
    ensures r == RowsOf(rows, skillsUri, knowledgeUri)
  {
    var data: seq<OutRow> := [];
    for i := 0 to |rows|
      invariant RowsOf(rows[..i], skillsUri, knowledgeUri) == Ok(data)
    {
      assert rows[..i + 1][..i] == rows[..i];
      var out := MapRow(rows[i], skillsUri, knowledgeUri);
      if out.Err? {
        RowsErrPersists(rows, i + 1, skillsUri, knowledgeUri);
        return Err(out.error);
      }
      data := data + [out.value];
    }
    assert rows[..|rows|] == rows;
    r := Ok(data);
  }

  // ---------------------------------------------------------------------------
  // Steps of the loops.

  /** Once a prefix of the pieces fails, the whole list fails with the same error. */
  lemma {:induction false} ResolveErrPersists(pieces: seq<string>, i: nat, skillsUri: map<string, string>, knowledgeUri: map<string, string>)
    requires i <= |pieces| && Resolve(pieces[..i], skillsUri, knowledgeUri).Err?
    ensures Resolve(pieces, skillsUri, knowledgeUri) == Resolve(pieces[..i], skillsUri, knowledgeUri)
  {
    if i < |pieces| {
      var init := pieces[..|pieces| - 1];
      assert init[..i] == pieces[..i];
      ResolveErrPersists(init, i, skillsUri, knowledgeUri);
    } else {
      assert pieces[..i] == pieces;
    }
  }

  lemma {:induction false} RowsErrPersists(rows: seq<Row>, i: nat, skillsUri: map<string, string>, knowledgeUri: map<string, string>)
    requires i <= |rows| && RowsOf(rows[..i], skillsUri, knowledgeUri).Err?
    ensures RowsOf(rows, skillsUri, knowledgeUri) == RowsOf(rows[..i], skillsUri, knowledgeUri)
  {
    if i < |rows| {
      var init := rows[..|rows| - 1];
      assert init[..i] == rows[..i];
      RowsErrPersists(init, i, skillsUri, knowledgeUri);
    } else {
      assert rows[..i] == rows;
    }
  }

  // ---------------------------------------------------------------------------
  // Properties.

  /** Splitting then joining with the separator gives back the field. */
  lemma {:induction false} SplitJoinRoundTrip(s: string, sep: char)
    ensures Join(Split(s, sep), [sep]) == s
  {
    if s != [] {
      SplitJoinRoundTrip(s[1..], sep);
      var rest := Split(s[1..], sep);
      if s[0] == sep {
        assert ([""] + rest)[1..] == rest;
        assert s == [sep] + s[1..];
      } else {
        var r := [[s[0]] + rest[0]] + rest[1..];
        assert r[1..] == rest[1..];
        if |rest| == 1 {
          assert s == [s[0]] + rest[0];
        } else {
          assert Join(rest, [sep]) == rest[0] + [sep] + Join(rest[1..], [sep]);
          assert s == [s[0]] + s[1..];
        }
      }
    }
  }

  /** No piece of a split holds the separator. */
  lemma {:induction false} SplitPiecesLackSeparator(s: string, sep: char)
    ensures forall i :: 0 <= i < |Split(s, sep)| ==> sep !in Split(s, sep)[i]
  {
    if s != [] {
      SplitPiecesLackSeparator(s[1..], sep);
      var rest := Split(s[1..], sep);
      if s[0] != sep {
        assert forall i :: 1 <= i < |rest| ==> rest[1..][i - 1] == rest[i];
      }
    }
  }

  /** There is one more piece than there are separators. */
  lemma {:induction false} SplitCount(s: string, sep: char)
    ensures |Split(s, sep)| == multiset(s)[sep] + 1
  {
    if s != [] {
      SplitCount(s[1..], sep);
      assert s == [s[0]] + s[1..];
    }
  }

  lemma {:induction false} TrimStartIsSuffix(s: string)
    ensures |TrimStart(s)| <= |s| && TrimStart(s) == s[|s| - |TrimStart(s)|..]
    ensures TrimStart(s) == [] || !IsSpace(TrimStart(s)[0])
    ensures forall k :: 0 <= k < |s| - |TrimStart(s)| ==> IsSpace(s[k])
  {
    if s != [] && IsSpace(s[0]) {
      TrimStartIsSuffix(s[1..]);
      assert forall k :: 1 <= k < |s| ==> s[1..][k - 1] == s[k];
    }
  }

  lemma {:induction false} TrimEndIsPrefix(s: string)
    ensures |TrimEnd(s)| <= |s| && TrimEnd(s) == s[..|TrimEnd(s)|]
    ensures TrimEnd(s) == [] || !IsSpace(TrimEnd(s)[|TrimEnd(s)| - 1])
    ensures forall k :: |TrimEnd(s)| <= k < |s| ==> IsSpace(s[k])
  {
    if s != [] && IsSpace(s[|s| - 1]) {
      TrimEndIsPrefix(s[..|s| - 1]);
    }
  }

  /** `strip` removes whitespace, and only whitespace, from both ends: the result is a
      slice of the input with no whitespace at either end. */
  lemma StripTrimsBothEnds(s: string) returns (lo: nat, hi: nat)
    ensures lo <= hi <= |s| && Strip(s) == s[lo..hi]
    ensures forall k :: 0 <= k < lo ==> IsSpace(s[k])
    ensures forall k :: hi <= k < |s| ==> IsSpace(s[k])
    ensures Strip(s) != [] ==> !IsSpace(Strip(s)[0]) && !IsSpace(Strip(s)[|Strip(s)| - 1])
  {
    var t := TrimStart(s);
    TrimStartIsSuffix(s);
    TrimEndIsPrefix(t);
    lo := |s| - |t|;
    hi := lo + |TrimEnd(t)|;
    assert forall k :: lo <= k < |s| ==> t[k - lo] == s[k];
    assert Strip(s) == s[lo..hi];
  }

  /** Stripping twice strips no more. */
  lemma StripIdempotent(s: string)
    ensures Strip(Strip(s)) == Strip(s)
  {
    var _, _ := StripTrimsBothEnds(s);
  }

  /** A row fails exactly when one of its pieces names an ID missing from its index. */
  lemma {:induction false} ResolveFailsIff(pieces: seq<string>, skillsUri: map<string, string>, knowledgeUri: map<string, string>)
    ensures Resolve(pieces, skillsUri, knowledgeUri).Err? <==>
      exists i :: 0 <= i < |pieces| && Unresolvable(Strip(pieces[i]), skillsUri, knowledgeUri)
  {
    if pieces != [] {
      var init := pieces[..|pieces| - 1];
      ResolveFailsIff(init, skillsUri, knowledgeUri);
      assert forall i :: 0 <= i < |init| ==> init[i] == pieces[i];
      if exists i :: 0 <= i < |pieces| && Unresolvable(Strip(pieces[i]), skillsUri, knowledgeUri) {
        var i :| 0 <= i < |pieces| && Unresolvable(Strip(pieces[i]), skillsUri, knowledgeUri);
        if i < |init| {
          assert Unresolvable(Strip(init[i]), skillsUri, knowledgeUri);
        }
      }
    }
  }

  /** The error names the first unresolvable piece, stripped. */
  lemma {:induction false} ResolveErrNamesFirst(pieces: seq<string>, skillsUri: map<string, string>, knowledgeUri: map<string, string>) returns (i: nat)
    requires Resolve(pieces, skillsUri, knowledgeUri).Err?
    ensures i < |pieces| && Unresolvable(Strip(pieces[i]), skillsUri, knowledgeUri)
    ensures Resolve(pieces, skillsUri, knowledgeUri) == Err(KeyError(Strip(pieces[i])))
    ensures forall k :: 0 <= k < i ==> !Unresolvable(Strip(pieces[k]), skillsUri, knowledgeUri)
  {
    var init := pieces[..|pieces| - 1];
    if Resolve(init, skillsUri, knowledgeUri).Err? {
      i := ResolveErrNamesFirst(init, skillsUri, knowledgeUri);
      assert init[i] == pieces[i];
      assert forall k :: 0 <= k < i ==> init[k] == pieces[k];
    } else {
      i := |pieces| - 1;
      ResolveFailsIff(init, skillsUri, knowledgeUri);
      assert forall k :: 0 <= k < i ==> init[k] == pieces[k];
    }
  }

  /** Resolved URIs keep the order of the pieces: the pieces `a + b` give `a`'s URIs,
      then `b`'s. */
  lemma {:induction false} ResolveConcat(a: seq<string>, b: seq<string>, skillsUri: map<string, string>, knowledgeUri: map<string, string>)
    requires Resolve(a, skillsUri, knowledgeUri).Ok? && Resolve(b, skillsUri, knowledgeUri).Ok?
    ensures Resolve(a + b, skillsUri, knowledgeUri) == Ok(Promoted(
      Resolve(a, skillsUri, knowledgeUri).value.skills + Resolve(b, skillsUri, knowledgeUri).value.skills,
      Resolve(a, skillsUri, knowledgeUri).value.knowledge + Resolve(b, skillsUri, knowledgeUri).value.knowledge))
  {
    var pa := Resolve(a, skillsUri, knowledgeUri).value;
    if b == [] {
      assert a + b == a;
      assert pa.skills + [] == pa.skills && pa.knowledge + [] == pa.knowledge;
    } else {
      var b0 := b[..|b| - 1];
      var last := b[|b| - 1];
      assert (a + b)[..|a + b| - 1] == a + b0;
      assert (a + b)[|a + b| - 1] == last;
      var pb0 := Resolve(b0, skillsUri, knowledgeUri).value;
      ResolveConcat(a, b0, skillsUri, knowledgeUri);
      StepAfterPrefix(pa, pb0, last, skillsUri, knowledgeUri);
    }
  }

  /** A step on the concatenated results is the step on the second part, with the first part in front. */
  lemma StepAfterPrefix(pa: Promoted, p: Promoted, piece: string, skillsUri: map<string, string>, knowledgeUri: map<string, string>)
    requires Step(p, piece, skillsUri, knowledgeUri).Ok?
    ensures Step(Promoted(pa.skills + p.skills, pa.knowledge + p.knowledge), piece, skillsUri, knowledgeUri) ==
      Ok(Promoted(pa.skills + Step(p, piece, skillsUri, knowledgeUri).value.skills,
                  pa.knowledge + Step(p, piece, skillsUri, knowledgeUri).value.knowledge))
  {
    var id := Strip(piece);
    if IsSkillId(id) {
      Sequences.AppendAssoc(pa.skills, p.skills, [skillsUri[id]]);
    } else if IsKnowledgeId(id) {
      Sequences.AppendAssoc(pa.knowledge, p.knowledge, [knowledgeUri[id]]);
    }
  }

  /** A single piece: an S-ID gives its skill URI, a K-ID its knowledge URI, and any
      other piece nothing. */
  lemma ResolveOne(piece: string, skillsUri: map<string, string>, knowledgeUri: map<string, string>)
    ensures var id := Strip(piece);
      Resolve([piece], skillsUri, knowledgeUri) ==
        if IsSkillId(id) then (if id in skillsUri then Ok(Promoted([skillsUri[id]], [])) else Err(KeyError(id)))
        else if IsKnowledgeId(id) then (if id in knowledgeUri then Ok(Promoted([], [knowledgeUri[id]])) else Err(KeyError(id)))
        else Ok(Promoted([], []))
  {
    assert [piece][..0] == [];
    forall u: string ensures [] + [u] == [u] {
    }
  }

  /** A row fails exactly when its promoted cell is empty or one of its IDs is missing
      from its index (see ResolveFailsIff); an empty cell fails before any lookup. */
  lemma RowOfFailsIff(row: Row, skillsUri: map<string, string>, knowledgeUri: map<string, string>)
    ensures row.promoted.None? ==> RowOf(row, skillsUri, knowledgeUri) == Err(MissingCell)
    ensures row.promoted.Some? ==>
      (RowOf(row, skillsUri, knowledgeUri).Err? <==> Resolve(Split(row.promoted.value, ','), skillsUri, knowledgeUri).Err?)
    ensures RowOf(row, skillsUri, knowledgeUri).Ok? ==>
      && row.promoted.Some?
      && RowOf(row, skillsUri, knowledgeUri).value.moduleTitle == row.moduleTitle
      && RowOf(row, skillsUri, knowledgeUri).value.learningOutcome == row.learningOutcome
  {
  }

  /** There are never more URIs than pieces. */
  lemma {:induction false} ResolveLength(pieces: seq<string>, skillsUri: map<string, string>, knowledgeUri: map<string, string>)
    requires Resolve(pieces, skillsUri, knowledgeUri).Ok?
    ensures |Resolve(pieces, skillsUri, knowledgeUri).value.skills| + |Resolve(pieces, skillsUri, knowledgeUri).value.knowledge| <= |pieces|
  {
    if pieces != [] {
      ResolveLength(pieces[..|pieces| - 1], skillsUri, knowledgeUri);
    }
  }

  /** One output row per input row, with the module title and learning outcome copied. */
  lemma {:induction false} RowsOfOnePerRow(rows: seq<Row>, skillsUri: map<string, string>, knowledgeUri: map<string, string>)
    requires RowsOf(rows, skillsUri, knowledgeUri).Ok?
    ensures |RowsOf(rows, skillsUri, knowledgeUri).value| == |rows|
    ensures forall i :: 0 <= i < |rows| ==>
      && RowsOf(rows, skillsUri, knowledgeUri).value[i].moduleTitle == rows[i].moduleTitle
      && RowsOf(rows, skillsUri, knowledgeUri).value[i].learningOutcome == rows[i].learningOutcome
      && RowOf(rows[i], skillsUri, knowledgeUri) == Ok(RowsOf(rows, skillsUri, knowledgeUri).value[i])
  {
    if rows != [] {
      var init := rows[..|rows| - 1];
      RowsOfOnePerRow(init, skillsUri, knowledgeUri);
      assert forall i :: 0 <= i < |init| ==> init[i] == rows[i];
    }
  }

  /** The table is written exactly when every row resolves. */
  lemma {:induction false} RowsOfFailsIff(rows: seq<Row>, skillsUri: map<string, string>, knowledgeUri: map<string, string>)
    ensures RowsOf(rows, skillsUri, knowledgeUri).Err? <==>
      exists i :: 0 <= i < |rows| && RowOf(rows[i], skillsUri, knowledgeUri).Err?
  {
    if rows != [] {
      var init := rows[..|rows| - 1];
      RowsOfFailsIff(init, skillsUri, knowledgeUri);
      assert forall i :: 0 <= i < |init| ==> init[i] == rows[i];
      if exists i :: 0 <= i < |rows| && RowOf(rows[i], skillsUri, knowledgeUri).Err? {
        var i :| 0 <= i < |rows| && RowOf(rows[i], skillsUri, knowledgeUri).Err?;
        if i < |init| {
          assert RowOf(init[i], skillsUri, knowledgeUri).Err?;
        }
      }
    }
  }
}
