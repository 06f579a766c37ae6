/**
 * The `ucsrename` command. Writing to a terminal, it runs the interactive rename,
 * which has its own copies of render, prompt and promptFields (the same logic as
 * the renamer package; the model uses those definitions). Writing elsewhere, it
 * prints the category list that the selector shows.
 */
module Cli {
  import opened Wrappers
  import opened Text
  import opened Ucs
  import Renamer

  // ---------------------------------------------------------------------------
  // printCategories

  /** The line printed for one category: `fmt.Println` separates its operands by a space and ends the line. */
  function ItemLine(c: Category): string
  {
    c.catId + " | " + c.category + " " + c.subCategory + " | " + c.synonyms + "\n"
  }

  /** What printCategories writes: one line per 6-field record, in record order. */
  function Listing(records: seq<seq<string>>): (lines: seq<string>)
    ensures |lines| == |Catalog(records)|
  {
    var items := Catalog(records);
    seq(|items|, i requires 0 <= i < |items| => ItemLine(items[i]))
  }

  /** printCategories after the CSV is read: the items are collected, then printed one per line. */
  method PrintCategories(records: seq<seq<string>>) returns (out: seq<string>)
    ensures out == Listing(records)
  {
    var items := CollectCategories(records);
    out := [];
    for i := 0 to |items|
      invariant |out| == i
      invariant forall k :: 0 <= k < i ==> out[k] == ItemLine(items[k])
    {
      out := out + [ItemLine(items[i])];
    }
  }

  /**
   * The list is not sorted: when every record is well formed, the k-th line
   * printed is the k-th record's, with its CatID (column 2) first.
   */
  lemma ListingInRecordOrder(records: seq<seq<string>>)
    requires forall i :: 0 <= i < |records| ==> |records[i]| == 6
    ensures |Listing(records)| == |records|
    ensures forall k :: 0 <= k < |records| ==>
      Listing(records)[k] == records[k][2] + " | " + records[k][0] + " " + records[k][1] + " | " + records[k][5] + "\n"
  {
    CatalogProjects(records);
  }

  /** A line is printed exactly when some 6-field record projects to it; other records are skipped. */
  lemma ListingLines(records: seq<seq<string>>, line: string)
    ensures line in Listing(records)
        <==> exists i :: 0 <= i < |records| && |records[i]| == 6 && line == ItemLine(FromRecord(records[i]))
  {
    var items := Catalog(records);
    if line in Listing(records) {
      var k :| 0 <= k < |items| && Listing(records)[k] == line;
      CatalogMembers(records, items[k]);
    }
    if exists i :: 0 <= i < |records| && |records[i]| == 6 && line == ItemLine(FromRecord(records[i])) {
      var i :| 0 <= i < |records| && |records[i]| == 6 && line == ItemLine(FromRecord(records[i]));
      CatalogMembers(records, FromRecord(records[i]));
      var k :| 0 <= k < |items| && items[k] == FromRecord(records[i]);
      assert Listing(records)[k] == line;
    }
  }

  // ---------------------------------------------------------------------------
  // newUCSFilename

  /** The command's reading of the selector output: the trimmed output up to its first space. */
  function SelectedCatId(output: string): (catId: string)
    ensures ' ' !in catId
    ensures var t := TrimSpace(output); |catId| <= |t| && catId == t[..|catId|]
    ensures var t := TrimSpace(output); |catId| == |t| || t[|catId|] == ' '
  {
    SplitFirstPrefix(TrimSpace(output), ' ');
    Split(TrimSpace(output), ' ')[0]
  }

  /** Trimming `p` + blank + `rest` keeps `p` and the blank, when `p` starts with and `rest` holds a non-space. */
  lemma TrimKeepsFirstWord(p: string, rest: string)
    requires p != "" && NoSpace(p) && rest != [] && !IsSpace(rest[0])
    ensures var t := TrimSpace(p + [' '] + rest);
      |t| > |p| + 1 && t == p + [' '] + t[|p| + 1..]
  {
    var s := p + [' '] + rest;
    var n := |p|;
    assert s[0] == p[0];
    assert TrimLeftSpace(s) == s;
    assert s[n + 1] == rest[0];
    var t := TrimRightSpace(s);
    assert t == s[..|t|];
    assert s[..n] == p;
  }

  /** The first blank-separated token of `p` + blank + `rest`, trimmed, is the word `p`. */
  lemma FirstToken(p: string, rest: string)
    requires p != "" && NoSpace(p) && rest != [] && !IsSpace(rest[0])
    ensures Split(TrimSpace(p + [' '] + rest), ' ')[0] == p
  {
    var t := TrimSpace(p + [' '] + rest);
    TrimKeepsFirstWord(p, rest);
    assert ' ' !in p by {
      assert IsSpace(' ');
    }
    SplitAtFirstSep(p, t[|p| + 1..], ' ');
  }

  /** The first blank-separated token of a trimmed listed line is its CatID. */
  lemma ListedLineToken(c: Category)
    requires c.catId != "" && NoSpace(c.catId)
    ensures Split(TrimSpace(ItemLine(c)), ' ')[0] == c.catId
  {
    var rest := "| " + c.category + " " + c.subCategory + " | " + c.synonyms + "\n";
    assert ItemLine(c) == c.catId + [' '] + rest;
    FirstToken(c.catId, rest);
  }

  /**
   * Choosing a listed line gives back its CatID when the CatID is a non-empty
   * word; the renamer's reading also strips trailing colons, so it gives the
   * CatID back exactly when the CatID does not end in `:`.
   */
  lemma ListedLineSelects(c: Category)
    requires c.catId != "" && NoSpace(c.catId)
    ensures SelectedCatId(ItemLine(c)) == c.catId
    ensures Renamer.ParseChoice(ItemLine(c)) == TrimRightChar(c.catId, ':')
    ensures Renamer.ParseChoice(ItemLine(c)) == c.catId <==> c.catId[|c.catId| - 1] != ':'
  {
    ListedLineToken(c);
  }

  /** newUCSFilename: a non-zero selector exit is an error; otherwise the fields are prompted for the chosen CatID. */
  function Chosen(env: Renamer.Env, selection: Renamer.Selection, input: Renamer.Input): Renamer.Step<Filename>
  {
    if selection.runError.ExitError? then
      Renamer.Step(Failure(Renamer.SelectorFailed(selection.runError.code)), input)
    else Renamer.Collected(SelectedCatId(selection.output), env, input)
  }

  method NewUcsFilename(env: Renamer.Env, selection: Renamer.Selection, input: Renamer.Input)
    returns (f: Result<Filename, Renamer.Error>, rest: Renamer.Input)
    ensures Renamer.Step(f, rest) == Chosen(env, selection, input)
  {
    if selection.runError.ExitError? {
      return Failure(Renamer.SelectorFailed(selection.runError.code)), input;
    }
    var catId := SelectedCatId(selection.output);
    f, rest := Renamer.PromptFields(catId, env, input);
  }

  /**
   * The command and the renamer build the same filename when UCS_CAT_ID is
   * unset and the chosen token does not end in `:`; the command never reads
   * UCS_CAT_ID and never validates the CatID.
   */
  lemma SameAsRenamer(env: Renamer.Env, catalog: Option<seq<Category>>,
                      selection: Renamer.Selection, input: Renamer.Input)
    requires env.catId == ""
    requires var tok := SelectedCatId(selection.output); tok == "" || tok[|tok| - 1] != ':'
    ensures Chosen(env, selection, input) == Renamer.Built(env, catalog, selection, input)
  {
  }

  // ---------------------------------------------------------------------------
  // runInteractive

  /** What an interactive run ends in when it does not fail. */
  datatype Action = ShowUsage | Rename(newName: string) | Keep

  /**
   * runInteractive after its flags are parsed: no file name shows the usage;
   * a directory or a name without extension is an error; otherwise the filename
   * is built and the rename done when forced or confirmed.
   */
  function Interaction(name: string, isDir: bool, ext: string, force: bool, answer: string,
                       env: Renamer.Env, selection: Renamer.Selection, input: Renamer.Input): Renamer.Step<Action>
  {
    if name == "" then Renamer.Step(Success(ShowUsage), input)
    else if isDir then Renamer.Step(Failure(Renamer.IsDirectory), input)
    else if ext == "" then Renamer.Step(Failure(Renamer.NoExtension), input)
    else
      var b := Chosen(env, selection, input);
      if b.result.Failure? then Renamer.Step(Failure(b.result.error), b.rest)
      else if force || Renamer.Confirm(answer) then Renamer.Step(Success(Rename(Render(b.result.value, ext))), b.rest)
      else Renamer.Step(Success(Keep), b.rest)
  }

  method RunInteractive(name: string, isDir: bool, ext: string, force: bool, answer: string,
                        env: Renamer.Env, selection: Renamer.Selection, input: Renamer.Input)
    returns (action: Result<Action, Renamer.Error>, rest: Renamer.Input)
    ensures Renamer.Step(action, rest) == Interaction(name, isDir, ext, force, answer, env, selection, input)
  {
    if name == "" {
      return Success(ShowUsage), input;
    }
    if isDir {
      return Failure(Renamer.IsDirectory), input;
    }
    if ext == "" {
      return Failure(Renamer.NoExtension), input;
    }
    var f;
    f, rest := NewUcsFilename(env, selection, input);
    if f.Failure? {
      return Failure(f.error), rest;
    }
    var newName := Render(f.value, ext);
    if force {
      return Success(Rename(newName)), rest;
    }
    var lowered := Lower(answer);
    if lowered == "y" || lowered == "yes" {
      return Success(Rename(newName)), rest;
    } else if lowered == "n" || lowered == "no" {
      return Success(Keep), rest;
    }
    return Success(Keep), rest;
  }

  /**
   * Once the filename is built, the command renames exactly when forced or
   * confirmed, and then to the rendered name of the collected fields; `n`,
   * `no` and every other answer that does not confirm keep the file as it is.
   */
  lemma RenameOnlyWhenConfirmed(name: string, isDir: bool, ext: string, force: bool, answer: string,
                                env: Renamer.Env, selection: Renamer.Selection, input: Renamer.Input)
    ensures var p := Interaction(name, isDir, ext, force, answer, env, selection, input);
      && (p.result.Success? && p.result.value.Rename? ==>
            && name != "" && (force || Renamer.Confirm(answer))
            && Chosen(env, selection, input).result.Success?
            && p.result.value.newName == Render(Chosen(env, selection, input).result.value, ext))
      && (p.result.Success? && p.result.value.Keep? ==> !force && !Renamer.Confirm(answer))
      && ((name != "" && !isDir && ext != "" && Chosen(env, selection, input).result.Success?
             && !force && !Renamer.Confirm(answer)) ==> p.result == Success(Keep))
    ensures (name != "" && !isDir && ext != "" && Chosen(env, selection, input).result.Success?
             && (force || Renamer.Confirm(answer)))
        ==> Interaction(name, isDir, ext, force, answer, env, selection, input).result
            == Success(Rename(Render(Chosen(env, selection, input).result.value, ext)))
  {
  }
}
