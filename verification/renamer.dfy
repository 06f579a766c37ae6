/**
 * Package renamer: the interactive renamer. It resolves a CatID (from
 * UCS_CAT_ID, checked against the category table, or from the selector's
 * output), prompts for the remaining fields, renders the UCS filename and
 * confirms the rename.
 *
 * I/O is passed in as values: standard input is an `Input`, the environment an
 * `Env`, the selector run a `Selection`, the category table an `Option`. Every
 * operation returns the input it left unread, so that a sequence of prompts
 * threads one reader through, as the Go code does with `r.Stdin`.
 */
module Renamer {
  import opened Wrappers
  import opened Text
  import opened Ucs

  /** The errors the renamer returns. */
  datatype Error =
    | IsDirectory                  // the source path names a directory
    | NoExtension                  // the source file name has no extension
    | CatalogUnavailable           // the category table could not be read or parsed
    | UnknownCatId(catId: string)  // "unknown CatID: ..."
    | SelectorFailed(code: int)    // the selector exited with a non-zero status
    | EndOfInput                   // a read hit the end of standard input
    | FieldRequired(field: string) // "... is required"

  datatype Requirement = Required | Optional

  /**
   * Standard input as the prompts read it: the complete lines still to come
   * (each without its newline), then an unterminated tail, then end of input.
   * Neither a line nor the tail holds a newline; a value with one does not
   * stand for any standard input, since `ReadString('\n')` would split it.
   */
  datatype Input = Input(lines: seq<string>, partial: string)

  /** A result together with the input left unread after producing it. */
  datatype Step<T> = Step(result: Result<T, Error>, rest: Input)

  /** The environment variables the renamer reads; "" stands for unset, as `os.Getenv` returns it. */
  datatype Env = Env(catId: string, creatorId: string, sourceId: string, userData: string)

  // ---------------------------------------------------------------------------
  // The field prompt protocol

  /**
   * One `ReadString('\n')`: the next line with its newline; at the end of
   * input an error, and any unterminated tail is consumed with it.
   */
  function ReadString(input: Input): Step<string>
  {
    if input.lines == [] then Step(Failure(EndOfInput), Input([], ""))
    else Step(Success(input.lines[0] + "\n"), Input(input.lines[1..], input.partial))
  }

  /** `strings.Join(strings.Fields(trimmed), "-")`. */
  function Normalize(trimmed: string): string
  {
    Join(Fields(trimmed), '-')
  }

  /** What a prompt makes of one line it read: the value it returns, or None to prompt again. */
  function Accept(req: Requirement, text: string): Option<string>
  {
    var trimmed := TrimSpace(text);
    if req == Required && trimmed == "" then None
    else if '_' in trimmed then None
    else Some(Normalize(trimmed))
  }

  /**
   * Which lines a prompt accepts, and what it makes of them: a line is rejected
   * exactly when it is blank for a required field or holds `_`; an accepted
   * value is the trimmed line with each white-space run replaced by one `-`, so
   * it holds no white space and no `_`, and it is empty only for a blank line.
   */
  lemma AcceptSpec(req: Requirement, text: string)
    ensures Accept(req, text).Some? <==> !(req == Required && AllSpace(text)) && '_' !in text
    ensures Accept(req, text).Some? ==>
      var v := Accept(req, text).value;
      && v == CollapseRuns(TrimSpace(text), '-')
      && NoSpace(v) && '_' !in v
      && (v == "" <==> AllSpace(text))
  {
    var trimmed := TrimSpace(text);
    TrimSpaceEnds(text);
    TrimSpaceEmpty(text);
    TrimSpaceKeeps(text, '_');
    JoinFieldsCollapses(trimmed, '-');
    CollapseHasNoSpace(trimmed, '-');
    CollapseKeeps(trimmed, '-', '_');
  }

  /** The re-prompt loop: lines are read until one is accepted or the input ends. */
  function Interactive(req: Requirement, input: Input): Step<string>
    decreases |input.lines|
  {
    var read := ReadString(input);
    if read.result.Failure? then Step(Failure(read.result.error), read.rest)
    else match Accept(req, read.result.value)
      case Some(v) => Step(Success(v), read.rest)
      case None => Interactive(req, read.rest)
  }

  /**
   * promptField: a named override variable with a non-empty value wins as it
   * is; otherwise the re-prompt loop. `envOverride` is None when no variable
   * is named and Some(value of the variable) when one is.
   */
  function Prompted(envOverride: Option<string>, req: Requirement, input: Input): Step<string>
  {
    if envOverride.Some? && envOverride.value != "" then Step(Success(envOverride.value), input)
    else Interactive(req, input)
  }

  /** The field prompt of the renamer; the loop consumes one line per turn. */
  method PromptField(envOverride: Option<string>, req: Requirement, input: Input)
    returns (value: Result<string, Error>, rest: Input)
    ensures Step(value, rest) == Prompted(envOverride, req, input)
  {
    if envOverride.Some? {
      var val := envOverride.value;
      if val != "" {
        return Success(val), input;
      }
    }
    rest := input;
    while true
      invariant Interactive(req, rest) == Interactive(req, input)
      decreases |rest.lines|
    {
      var read := ReadString(rest);
      rest := read.rest;
      if read.result.Failure? {
        return Failure(read.result.error), rest;
      }
      var trimmed := TrimSpace(read.result.value);
      if req == Required && trimmed == "" {
        continue;
      }
      if '_' in trimmed {
        continue;
      }
      return Success(Normalize(trimmed)), rest;
    }
  }

  /** A non-empty override is returned verbatim: not trimmed, not checked for `_`, not hyphenated; no input is read. */
  lemma OverrideVerbatim(value: string, req: Requirement, input: Input)
    requires value != ""
    ensures Prompted(Some(value), req, input) == Step(Success(value), input)
  {
  }

  /**
   * Rejected lines are consumed and the prompt asked again: the result is the
   * value of the first acceptable line, and reading resumes after it.
   */
  lemma {:induction false} FirstAcceptableLine(req: Requirement, input: Input, k: nat)
    requires k < |input.lines|
    requires Accept(req, input.lines[k] + "\n").Some?
    requires forall j :: 0 <= j < k ==> Accept(req, input.lines[j] + "\n").None?
    ensures Interactive(req, input)
         == Step(Success(Accept(req, input.lines[k] + "\n").value), Input(input.lines[k + 1..], input.partial))
    decreases k
  {
    if k > 0 {
      var next := Input(input.lines[1..], input.partial);
      assert Accept(req, input.lines[0] + "\n").None?;
      forall j | 0 <= j < k - 1 ensures Accept(req, next.lines[j] + "\n").None? {
        assert next.lines[j] == input.lines[j + 1];
      }
      FirstAcceptableLine(req, next, k - 1);
      assert next.lines[k - 1] == input.lines[k];
      assert next.lines[k..] == input.lines[k + 1..];
    }
  }

  /**
   * When no line is acceptable the prompt reads them all and then fails with
   * the read error; the unterminated tail is consumed too and never accepted.
   */
  lemma {:induction false} NoAcceptableLine(req: Requirement, input: Input)
    requires forall j :: 0 <= j < |input.lines| ==> Accept(req, input.lines[j] + "\n").None?
    ensures Interactive(req, input) == Step(Failure(EndOfInput), Input([], ""))
    decreases |input.lines|
  {
    if input.lines != [] {
      var next := Input(input.lines[1..], input.partial);
      forall j | 0 <= j < |next.lines| ensures Accept(req, next.lines[j] + "\n").None? {
        assert next.lines[j] == input.lines[j + 1];
      }
      NoAcceptableLine(req, next);
    }
  }

  /**
   * What an interactive prompt returns: on success a value without white space
   * or `_`, non-empty for a required field; on failure the read error, with all
   * input consumed.
   */
  lemma {:induction false} InteractiveResult(req: Requirement, input: Input)
    ensures var s := Interactive(req, input);
      && (s.result.Success? ==>
            NoSpace(s.result.value) && '_' !in s.result.value && (req == Required ==> s.result.value != ""))
      && (s.result.Failure? ==> s.result.error == EndOfInput && s.rest == Input([], ""))
    decreases |input.lines|
  {
    if input.lines != [] {
      var text := input.lines[0] + "\n";
      AcceptSpec(req, text);
      if Accept(req, text).None? {
        InteractiveResult(req, Input(input.lines[1..], input.partial));
      }
    }
  }

  /** Trimming the leading blanks of the tails of the example line. */
  lemma ExampleTrimLeft(b: char, c: char)
    requires !IsSpace(b) && !IsSpace(c)
    ensures TrimLeftSpace([' ', ' ', ' ', b, ' ', ' ', c]) == [b, ' ', ' ', c]
    ensures TrimLeftSpace([' ', ' ', c]) == [c]
  {
    var s0 := [b, ' ', ' ', c];
    var s1 := [' ', b, ' ', ' ', c];
    var s2 := [' ', ' ', b, ' ', ' ', c];
    var s3 := [' ', ' ', ' ', b, ' ', ' ', c];
    assert TrimLeftSpace(s0) == s0;
    assert s1[1..] == s0;
    assert TrimLeftSpace(s1) == s0;
    assert s2[1..] == s1;
    assert TrimLeftSpace(s2) == s0;
    assert s3[1..] == s2;
    var t := [' ', ' ', c];
    assert t[1..] == [' ', c];
    assert t[1..][1..] == [c];
  }

  /** The example line `a   b  c` (three blanks, then two) collapses to `a-b-c`. */
  lemma ExampleCollapse(a: char, b: char, c: char)
    requires !IsSpace(a) && !IsSpace(b) && !IsSpace(c)
    ensures CollapseRuns([a, ' ', ' ', ' ', b, ' ', ' ', c], '-') == [a, '-', b, '-', c]
  {
    ExampleTrimLeft(b, c);
    var s := [a, ' ', ' ', ' ', b, ' ', ' ', c];
    CollapseHead(s, '-');
    assert s[1..] == [' ', ' ', ' ', b, ' ', ' ', c];
    CollapseRun(s[1..], '-');
    var u := [b, ' ', ' ', c];
    CollapseHead(u, '-');
    assert u[1..] == [' ', ' ', c];
    CollapseRun(u[1..], '-');
    CollapseHead([c], '-');
    assert [c][1..] == [];
  }

  /**
   * The whitespace-run example: for any word characters `a`, `b`, `c`, the line
   * `a   b  c` is accepted as `a-b-c`.
   */
  lemma HyphenExample(req: Requirement, a: char, b: char, c: char)
    requires !IsSpace(a) && !IsSpace(b) && !IsSpace(c)
    requires a != '_' && b != '_' && c != '_'
    ensures Accept(req, [a, ' ', ' ', ' ', b, ' ', ' ', c, '\n']) == Some([a, '-', b, '-', c])
  {
    var line := [a, ' ', ' ', ' ', b, ' ', ' ', c];
    var text := line + ['\n'];
    assert text == [a, ' ', ' ', ' ', b, ' ', ' ', c, '\n'];
    assert TrimLeftSpace(text) == text;
    assert text[..|text| - 1] == line;
    assert TrimRightSpace(line) == line;
    assert TrimSpace(text) == line;
    assert '_' !in line;
    ExampleCollapse(a, b, c);
    JoinFieldsCollapses(line, '-');
  }

  // ---------------------------------------------------------------------------
  // Collecting the fields

  /**
   * promptFields: CatID as given, then FXName, CreatorID, SourceID and UserData
   * in that order; the first error ends it, leaving the later fields unasked.
   */
  function Collected(catId: string, env: Env, input: Input): Step<Filename>
  {
    var fx := Prompted(None, Required, input);
    if fx.result.Failure? then Step(Failure(fx.result.error), fx.rest)
    else if fx.result.value == "" then Step(Failure(FieldRequired("FXName")), fx.rest)
    else
      var cr := Prompted(Some(env.creatorId), Required, fx.rest);
      if cr.result.Failure? then Step(Failure(cr.result.error), cr.rest)
      else if cr.result.value == "" then Step(Failure(FieldRequired("CreatorID")), cr.rest)
      else
        var src := Prompted(Some(env.sourceId), Required, cr.rest);
        if src.result.Failure? then Step(Failure(src.result.error), src.rest)
        else if src.result.value == "" then Step(Failure(FieldRequired("SourceID")), src.rest)
        else
          var ud := Prompted(Some(env.userData), Optional, src.rest);
          if ud.result.Failure? then Step(Failure(ud.result.error), ud.rest)
          else Step(Success(Filename(catId, fx.result.value, cr.result.value, src.result.value, ud.result.value)), ud.rest)
  }

  /** The fields of the renamer's filename, set one at a time with an early return on each error. */
  method PromptFields(catId: string, env: Env, input: Input) returns (f: Result<Filename, Error>, rest: Input)
    ensures Step(f, rest) == Collected(catId, env, input)
  {
    var g := Filename(catId, "", "", "", "");
    var r;
    r, rest := PromptField(None, Required, input);
    if r.Failure? {
      return Failure(r.error), rest;
    }
    g := g.(fxName := r.value);
    if g.fxName == "" {
      return Failure(FieldRequired("FXName")), rest;
    }
    r, rest := PromptField(Some(env.creatorId), Required, rest);
    if r.Failure? {
      return Failure(r.error), rest;
    }
    g := g.(creatorId := r.value);
    if g.creatorId == "" {
      return Failure(FieldRequired("CreatorID")), rest;
    }
    r, rest := PromptField(Some(env.sourceId), Required, rest);
    if r.Failure? {
      return Failure(r.error), rest;
    }
    g := g.(sourceId := r.value);
    if g.sourceId == "" {
      return Failure(FieldRequired("SourceID")), rest;
    }
    r, rest := PromptField(Some(env.userData), Optional, rest);
    if r.Failure? {
      return Failure(r.error), rest;
    }
    g := g.(userData := r.value);
    return Success(g), rest;
  }

  /**
   * What one promptField call returns: an override value verbatim, or a
   * prompted value without white space or `_` (non-empty when required); a
   * failure is always the read error.
   */
  lemma PromptedResult(envOverride: Option<string>, req: Requirement, input: Input)
    ensures var s := Prompted(envOverride, req, input);
      && (s.result.Success? && envOverride.Some? && envOverride.value != "" ==> s.result.value == envOverride.value)
      && (s.result.Success? && !(envOverride.Some? && envOverride.value != "") ==>
            NoSpace(s.result.value) && '_' !in s.result.value && (req == Required ==> s.result.value != ""))
      && (s.result.Failure? ==> s.result.error == EndOfInput)
  {
    InteractiveResult(req, input);
  }

  /** A required prompt never returns an empty value: from an override it is non-empty by choice, from input by validation. */
  lemma RequiredPromptNonEmpty(envOverride: Option<string>, input: Input)
    ensures var s := Prompted(envOverride, Required, input);
      s.result.Success? ==> s.result.value != ""
  {
    InteractiveResult(Required, input);
  }

  /** Every prompt error is a read error: the "is required" checks of promptFields never fire. */
  lemma CollectedFailsOnlyAtEndOfInput(catId: string, env: Env, input: Input)
    ensures var s := Collected(catId, env, input);
      s.result.Failure? ==> s.result.error == EndOfInput
  {
    var fx := Prompted(None, Required, input);
    PromptedResult(None, Required, input);
    RequiredPromptNonEmpty(None, input);
    if fx.result.Success? {
      var cr := Prompted(Some(env.creatorId), Required, fx.rest);
      PromptedResult(Some(env.creatorId), Required, fx.rest);
      RequiredPromptNonEmpty(Some(env.creatorId), fx.rest);
      if cr.result.Success? {
        var src := Prompted(Some(env.sourceId), Required, cr.rest);
        PromptedResult(Some(env.sourceId), Required, cr.rest);
        RequiredPromptNonEmpty(Some(env.sourceId), cr.rest);
        if src.result.Success? {
          PromptedResult(Some(env.userData), Optional, src.rest);
        }
      }
    }
  }

  /**
   * What a collected filename holds: the CatID as given; the three required
   * fields non-empty; each overridden field verbatim from its variable; each
   * prompted field free of white space and of `_`.
   */
  lemma CollectedFields(catId: string, env: Env, input: Input)
    ensures var s := Collected(catId, env, input);
      s.result.Success? ==>
        var f := s.result.value;
        && f.catId == catId
        && f.fxName != "" && f.creatorId != "" && f.sourceId != ""
        && NoSpace(f.fxName) && '_' !in f.fxName
        && (env.creatorId != "" ==> f.creatorId == env.creatorId)
        && (env.creatorId == "" ==> NoSpace(f.creatorId) && '_' !in f.creatorId)
        && (env.sourceId != "" ==> f.sourceId == env.sourceId)
        && (env.sourceId == "" ==> NoSpace(f.sourceId) && '_' !in f.sourceId)
        && (env.userData != "" ==> f.userData == env.userData)
        && (env.userData == "" ==> NoSpace(f.userData) && '_' !in f.userData)
  {
    var s := Collected(catId, env, input);
    if s.result.Success? {
      var fx := Prompted(None, Required, input);
      var cr := Prompted(Some(env.creatorId), Required, fx.rest);
      var src := Prompted(Some(env.sourceId), Required, cr.rest);
      var ud := Prompted(Some(env.userData), Optional, src.rest);
      assert s.result.value == Filename(catId, fx.result.value, cr.result.value, src.result.value, ud.result.value);
      PromptedResult(None, Required, input);
      PromptedResult(Some(env.creatorId), Required, fx.rest);
      PromptedResult(Some(env.sourceId), Required, cr.rest);
      PromptedResult(Some(env.userData), Optional, src.rest);
    }
  }

  /**
   * With CreatorID, SourceID and UserData all overridden, only FXName is read:
   * the collected filename takes the first acceptable line and reading stops there.
   */
  lemma OverridesLeaveOnlyFxName(catId: string, env: Env, input: Input)
    requires env.creatorId != "" && env.sourceId != "" && env.userData != ""
    ensures var fx := Interactive(Required, input);
      Collected(catId, env, input)
        == if fx.result.Failure? then Step(Failure(fx.result.error), fx.rest)
           else Step(Success(Filename(catId, fx.result.value, env.creatorId, env.sourceId, env.userData)), fx.rest)
  {
    var fx := Prompted(None, Required, input);
    assert fx == Interactive(Required, input);
    RequiredPromptNonEmpty(None, input);
    if fx.result.Success? {
      OverrideVerbatim(env.creatorId, Required, fx.rest);
      OverrideVerbatim(env.sourceId, Required, fx.rest);
      OverrideVerbatim(env.userData, Optional, fx.rest);
    }
  }

  /**
   * The end-to-end promise: when the CatID and the override values hold no
   * `_`, the filename that promptFields collects renders to a name that splits
   * on `_` back into its segments, four or five of them.
   */
  lemma CollectedNameSplits(catId: string, env: Env, input: Input, ext: string)
    requires '_' !in catId && '_' !in env.creatorId && '_' !in env.sourceId && '_' !in env.userData
    requires Collected(catId, env, input).result.Success?
    ensures var f := Collected(catId, env, input).result.value;
      var name := Render(f, ext);
      && Split(name[..|name| - |ext|], '_') == Segments(f)
      && |Segments(f)| == (if f.userData == "" then 4 else 5)
  {
    CollectedFields(catId, env, input);
    RenderSplits(Collected(catId, env, input).result.value, ext);
  }

  /** Overrides are not validated: a CreatorID override holding `_` reaches the filename unchanged. */
  lemma OverrideKeepsDelimiter(input: Input)
    requires Interactive(Required, input).result.Success?
    ensures var s := Collected("AMBPark", Env("", "a_b", "src", "ud"), input);
      s.result.Success? && '_' in s.result.value.creatorId
  {
    OverridesLeaveOnlyFxName("AMBPark", Env("", "a_b", "src", "ud"), input);
    assert "a_b"[1] == '_';
  }

  // ---------------------------------------------------------------------------
  // Resolving the CatID

  /** How running the selector ended: normally, with a non-zero exit status, or with any other error. */
  datatype RunError = NoRunError | ExitError(code: int) | OtherRunError

  /** What the selector left behind: its standard output and how the run ended. */
  datatype Selection = Selection(output: string, runError: RunError)

  /**
   * The renamer's reading of the selector output: the trimmed output up to its
   * first space, with any trailing `:` removed.
   */
  function ParseChoice(output: string): (catId: string)
    ensures ' ' !in catId
    ensures catId == "" || catId[|catId| - 1] != ':'
    ensures var t := TrimSpace(output); |catId| <= |t| && catId == t[..|catId|]
    ensures var t := TrimSpace(output);
      exists k :: 0 <= k <= |t| && ' ' !in t[..k] && (k == |t| || t[k] == ' ') && catId == TrimRightChar(t[..k], ':')
  {
    ChoiceShape(TrimSpace(output));
    TrimRightChar(Split(TrimSpace(output), ' ')[0], ':')
  }

  /** The shape of the renamer's reading of a trimmed selector output `t`. */
  lemma ChoiceShape(t: string)
    ensures var c := TrimRightChar(Split(t, ' ')[0], ':');
      && ' ' !in c && (c == "" || c[|c| - 1] != ':') && |c| <= |t| && c == t[..|c|]
      && exists k :: 0 <= k <= |t| && ' ' !in t[..k] && (k == |t| || t[k] == ' ') && c == TrimRightChar(t[..k], ':')
  {
    var token := Split(t, ' ')[0];
    SplitFirstPrefix(t, ' ');
    assert t[..|token|] == token;
  }

  /** `slices.ContainsFunc` over the table with the CatID comparison. */
  function HasCatId(categories: seq<Category>, catId: string): (found: bool)
    ensures found <==> exists i :: 0 <= i < |categories| && categories[i].catId == catId
  {
    if categories == [] then false
    else categories[0].catId == catId || HasCatId(categories[1..], catId)
  }

  /**
   * validateCatID: fails when the table cannot be read (`catalog` is None),
   * or when no category has the CatID.
   */
  function ValidateCatId(catId: string, catalog: Option<seq<Category>>): (r: Outcome<Error>)
    ensures r.Pass? <==> catalog.Some? && exists i :: 0 <= i < |catalog.value| && catalog.value[i].catId == catId
    ensures catalog.None? ==> r == Fail(CatalogUnavailable)
    ensures catalog.Some? && r.Fail? ==> r.error == UnknownCatId(catId)
  {
    if catalog.None? then Fail(CatalogUnavailable)
    else if !HasCatId(catalog.value, catId) then Fail(UnknownCatId(catId))
    else Pass
  }

  /**
   * Validation against the table that `ucs.Categories` returns for the parsed
   * records (any ordering of the well-formed rows): a CatID passes exactly
   * when some 6-field record holds it in its third column.
   */
  lemma {:induction false} ValidateAgainstRecords(catId: string, records: seq<seq<string>>, list: seq<Category>)
    requires multiset(list) == multiset(Catalog(records))
    ensures ValidateCatId(catId, Some(list)).Pass?
        <==> exists i :: 0 <= i < |records| && |records[i]| == 6 && records[i][2] == catId
  {
    if ValidateCatId(catId, Some(list)).Pass? {
      var k :| 0 <= k < |list| && list[k].catId == catId;
      assert list[k] in multiset(list);
      CatalogMembers(records, list[k]);
    }
    if exists i :: 0 <= i < |records| && |records[i]| == 6 && records[i][2] == catId {
      var i :| 0 <= i < |records| && |records[i]| == 6 && records[i][2] == catId;
      var c := FromRecord(records[i]);
      CatalogMembers(records, c);
      assert c in multiset(Catalog(records));
      assert c in list;
      var k :| 0 <= k < |list| && list[k] == c;
    }
  }

  /**
   * buildFilename: UCS_CAT_ID, when set, is validated and used; otherwise the
   * selector's choice is parsed. A non-zero selector exit is an error; any
   * other run error is ignored and the output parsed as it is.
   */
  function Built(env: Env, catalog: Option<seq<Category>>, selection: Selection, input: Input): Step<Filename>
  {
    if env.catId != "" then
      var v := ValidateCatId(env.catId, catalog);
      if v.Fail? then Step(Failure(v.error), input)
      else Collected(env.catId, env, input)
    else if selection.runError.ExitError? then Step(Failure(SelectorFailed(selection.runError.code)), input)
    else Collected(ParseChoice(selection.output), env, input)
  }

  method BuildFilename(env: Env, catalog: Option<seq<Category>>, selection: Selection, input: Input)
    returns (f: Result<Filename, Error>, rest: Input)
    ensures Step(f, rest) == Built(env, catalog, selection, input)
  {
    if env.catId != "" {
      var v := ValidateCatId(env.catId, catalog);
      if v.Fail? {
        return Failure(v.error), input;
      }
      f, rest := PromptFields(env.catId, env, input);
      return;
    }
    if selection.runError.ExitError? {
      return Failure(SelectorFailed(selection.runError.code)), input;
    }
    var catId := ParseChoice(selection.output);
    f, rest := PromptFields(catId, env, input);
  }

  /**
   * An override CatID that the table does not hold fails with UnknownCatId
   * before any prompt: no input is read.
   */
  lemma UnknownOverrideFailsBeforePrompting(env: Env, categories: seq<Category>, selection: Selection, input: Input)
    requires env.catId != ""
    requires forall i :: 0 <= i < |categories| ==> categories[i].catId != env.catId
    ensures Built(env, Some(categories), selection, input) == Step(Failure(UnknownCatId(env.catId)), input)
  {
  }

  /**
   * An empty or blank selector output is not rejected: it yields the empty
   * CatID, and without UCS_CAT_ID the fields are then collected for it.
   */
  lemma BlankChoiceGivesEmptyCatId(output: string, env: Env, catalog: Option<seq<Category>>, re: RunError, input: Input)
    requires AllSpace(output)
    ensures ParseChoice(output) == ""
    ensures env.catId == "" && !re.ExitError? ==>
      Built(env, catalog, Selection(output, re), input) == Collected("", env, input)
  {
    TrimSpaceEmpty(output);
  }

  // ---------------------------------------------------------------------------
  // Confirming and running

  /** confirm: only `y` and `yes`, in any letter case, run the action; any other answer is a no-op. */
  function Confirm(answer: string): bool
  {
    Lower(answer) == "y" || Lower(answer) == "yes"
  }

  /** The answers that confirm, spelled out: the ten letter-case forms of `y` and `yes`. */
  lemma ConfirmingAnswers(answer: string)
    ensures Confirm(answer) <==>
      answer in {"y", "Y", "yes", "yeS", "yEs", "yES", "Yes", "YeS", "YEs", "YES"}
  {
    var l := Lower(answer);
    if |answer| == 1 {
      assert l == [LowerChar(answer[0])];
      assert answer == [answer[0]];
    } else if |answer| == 3 {
      assert l == [LowerChar(answer[0]), LowerChar(answer[1]), LowerChar(answer[2])];
      assert answer == [answer[0], answer[1], answer[2]];
    }
  }

  /** What a run ends in when it does not fail. */
  datatype Plan = RenameTo(newName: string) | KeepName

  /** After the filename is built: rename at once when forced, otherwise only on a confirming answer. */
  function Finish(f: Filename, ext: string, force: bool, answer: string): Plan
  {
    if force || Confirm(answer) then RenameTo(Render(f, ext)) else KeepName
  }

  /**
   * Run: the source must be a file with an extension; then the filename is
   * built and the rename planned. `answer` is the token read for the
   * confirmation question.
   */
  function Planned(isDir: bool, ext: string, force: bool, answer: string, env: Env,
                   catalog: Option<seq<Category>>, selection: Selection, input: Input): Step<Plan>
  {
    if isDir then Step(Failure(IsDirectory), input)
    else if ext == "" then Step(Failure(NoExtension), input)
    else
      var b := Built(env, catalog, selection, input);
      if b.result.Failure? then Step(Failure(b.result.error), b.rest)
      else Step(Success(Finish(b.result.value, ext, force, answer)), b.rest)
  }

  method Run(isDir: bool, ext: string, force: bool, answer: string, env: Env,
             catalog: Option<seq<Category>>, selection: Selection, input: Input)
    returns (plan: Result<Plan, Error>, rest: Input)
    ensures Step(plan, rest) == Planned(isDir, ext, force, answer, env, catalog, selection, input)
  {
    if isDir {
      return Failure(IsDirectory), input;
    }
    if ext == "" {
      return Failure(NoExtension), input;
    }
    var f;
    f, rest := BuildFilename(env, catalog, selection, input);
    if f.Failure? {
      return Failure(f.error), rest;
    }
    var newName := Render(f.value, ext);
    if force {
      return Success(RenameTo(newName)), rest;
    }
    // confirm: its loop never repeats, since every case of the switch returns
    var lowered := Lower(answer);
    if lowered == "y" || lowered == "yes" {
      return Success(RenameTo(newName)), rest;
    } else if lowered == "n" || lowered == "no" {
      return Success(KeepName), rest;
    }
    return Success(KeepName), rest;
  }

  /**
   * Once the filename is built, a run renames exactly when forced or
   * confirmed, and then to the rendered UCS name, which keeps the source
   * extension; a declined answer is a success that renames nothing.
   */
  lemma RenameOnlyWhenConfirmed(isDir: bool, ext: string, force: bool, answer: string, env: Env,
                                catalog: Option<seq<Category>>, selection: Selection, input: Input)
    ensures var p := Planned(isDir, ext, force, answer, env, catalog, selection, input);
      && (p.result.Success? ==> !isDir && ext != "" && Built(env, catalog, selection, input).result.Success?)
      && (p.result.Success? && p.result.value.RenameTo? ==>
            && (force || Confirm(answer))
            && p.result.value.newName == Render(Built(env, catalog, selection, input).result.value, ext)
            && p.result.value.newName[|p.result.value.newName| - |ext|..] == ext)
      && (p.result.Success? && p.result.value.KeepName? ==> !force && !Confirm(answer))
      && ((!isDir && ext != "" && Built(env, catalog, selection, input).result.Success?
             && !force && !Confirm(answer)) ==> p.result == Success(KeepName))
    ensures (!isDir && ext != "" && Built(env, catalog, selection, input).result.Success? && (force || Confirm(answer)))
        ==> Planned(isDir, ext, force, answer, env, catalog, selection, input).result
            == Success(RenameTo(Render(Built(env, catalog, selection, input).result.value, ext)))
  {
  }
}
