/**
 * Package ucs: the Universal Category System category table and the UCS
 * filename. The table starts from CSV records that are already parsed;
 * opening and reading the CSV file is not part of this model.
 */
module Ucs {
  import opened Text

  /** One row of the UCS category table. */
  datatype Category = Category(
    category: string,
    subCategory: string,
    catId: string,
    catShort: string,
    synonyms: string)

  // ---------------------------------------------------------------------------
  // Shaping the category table

  /** A six-field CSV record as a Category: columns 0, 1, 2, 3 and 5; column 4 is unused. */
  function FromRecord(record: seq<string>): Category
    requires |record| == 6
  {
    Category(record[0], record[1], record[2], record[3], record[5])
  }

  /**
   * The categories the records describe, in record order: every record with
   * exactly six fields, converted; every other record skipped.
   */
  function Catalog(records: seq<seq<string>>): seq<Category>
    decreases |records|
  {
    if records == [] then []
    else
      var init := Catalog(records[..|records| - 1]);
      var last := records[|records| - 1];
      if |last| == 6 then init + [FromRecord(last)] else init
  }

  /**
   * Filtering, both directions: a Category is in the table exactly when some
   * six-field record converts to it.
   */
  lemma {:induction false} CatalogMembers(records: seq<seq<string>>, c: Category)
    ensures c in Catalog(records)
        <==> exists i :: 0 <= i < |records| && |records[i]| == 6 && FromRecord(records[i]) == c
    decreases |records|
  {
    if records != [] {
      var init := records[..|records| - 1];
      CatalogMembers(init, c);
      if exists i :: 0 <= i < |records| && |records[i]| == 6 && FromRecord(records[i]) == c {
        var i :| 0 <= i < |records| && |records[i]| == 6 && FromRecord(records[i]) == c;
        if i < |records| - 1 {
          assert init[i] == records[i];
        }
      }
      if exists i :: 0 <= i < |init| && |init[i]| == 6 && FromRecord(init[i]) == c {
        var i :| 0 <= i < |init| && |init[i]| == 6 && FromRecord(init[i]) == c;
        assert records[i] == init[i];
      }
    }
  }

  /** When every record has six fields, the table is their projection, one Category per record, in order. */
  lemma {:induction false} CatalogProjects(records: seq<seq<string>>)
    requires forall i :: 0 <= i < |records| ==> |records[i]| == 6
    ensures |Catalog(records)| == |records|
    ensures forall i :: 0 <= i < |records| ==> Catalog(records)[i] == FromRecord(records[i])
    decreases |records|
  {
    if records != [] {
      var init := records[..|records| - 1];
      CatalogProjects(init);
    }
  }

  /** The append loop of Categories: keeps the six-field records, converted, in order. */
  method CollectCategories(records: seq<seq<string>>) returns (list: seq<Category>)
    ensures list == Catalog(records)
  {
    list := [];
    for i := 0 to |records|
      invariant list == Catalog(records[..i])
    {
      assert records[..i + 1][..i] == records[..i];
      var r := records[i];
      if |r| != 6 {
        continue;
      }
      list := list + [FromRecord(r)];
    }
    assert records[..|records|] == records;
  }

  // ---------------------------------------------------------------------------
  // Sorting by CatID

  /**
   * Non-decreasing CatID order, checked on neighbours as `slices.IsSortedFunc`
   * does with the package's comparator: no element is smaller than the one before.
   */
  predicate SortedByCatId(cs: seq<Category>)
  {
    forall i :: 0 < i < |cs| ==> !Less(cs[i].catId, cs[i - 1].catId)
  }

  lemma {:induction false} SortedSpan(cs: seq<Category>, i: nat, j: nat)
    requires SortedByCatId(cs) && i <= j < |cs|
    ensures !Less(cs[j].catId, cs[i].catId)
    decreases j - i
  {
    if i == j {
      LessIrreflexive(cs[i].catId);
    } else {
      SortedSpan(cs, i, j - 1);
      NotLessTransitive(cs[i].catId, cs[j - 1].catId, cs[j].catId);
    }
  }

  /** Neighbour-wise order is order between any two positions. */
  lemma SortedPairwise(cs: seq<Category>)
    requires SortedByCatId(cs)
    ensures forall i, j :: 0 <= i < j < |cs| ==> !Less(cs[j].catId, cs[i].catId)
  {
    forall i, j | 0 <= i < j < |cs| ensures !Less(cs[j].catId, cs[i].catId) {
      SortedSpan(cs, i, j);
    }
  }

  /** Swaps two neighbouring entries of the array. */
  method SwapDown(a: array<Category>, j: int)
    requires 0 < j < a.Length
    modifies a
    ensures a[..] == old(a[..])[j - 1 := old(a[j])][j := old(a[j - 1])]
    ensures multiset(a[..]) == multiset(old(a[..]))
  {
    a[j - 1], a[j] := a[j], a[j - 1];
  }

  /**
   * One pass of the insertion sort: `a[i]` moves left past every entry whose
   * CatID is larger, so that the sorted prefix `a[..i]` grows to `a[..i + 1]`.
   */
  method InsertAt(a: array<Category>, i: int)
    requires 0 <= i < a.Length
    requires forall k :: 0 < k < i ==> !Less(a[k].catId, a[k - 1].catId)
    modifies a
    ensures forall k :: 0 < k <= i ==> !Less(a[k].catId, a[k - 1].catId)
    ensures multiset(a[..]) == multiset(old(a[..]))
  {
    var j := i;
    while j > 0 && Less(a[j].catId, a[j - 1].catId)
      invariant 0 <= j <= i
      invariant forall k :: 0 < k <= i && k != j && k != j + 1 ==> !Less(a[k].catId, a[k - 1].catId)
      invariant j < i ==> !Less(a[j + 1].catId, a[j].catId)
      invariant 0 < j < i ==> !Less(a[j + 1].catId, a[j - 1].catId)
      invariant multiset(a[..]) == multiset(old(a[..]))
    {
      LessAsymmetric(a[j].catId, a[j - 1].catId);
      SwapDown(a, j);
      j := j - 1;
    }
  }

  /** The in-place sort of Categories: an insertion sort by adjacent swaps. */
  method SortByCatId(a: array<Category>)
    modifies a
    ensures SortedByCatId(a[..])
    ensures multiset(a[..]) == multiset(old(a[..]))
  {
    var i := 0;
    while i < a.Length
      invariant 0 <= i <= a.Length
      invariant forall k :: 0 < k < i ==> !Less(a[k].catId, a[k - 1].catId)
      invariant multiset(a[..]) == multiset(old(a[..]))
    {
      InsertAt(a, i);
      i := i + 1;
    }
  }

  /**
   * Categories after the CSV is read: the six-field records, converted, sorted
   * by CatID. The result is a permutation of the filtered records.
   */
  method Categories(records: seq<seq<string>>) returns (list: seq<Category>)
    ensures SortedByCatId(list)
    ensures multiset(list) == multiset(Catalog(records))
  {
    list := CollectCategories(records);
    var a := new Category[|list|](i requires 0 <= i < |list| => list[i]);
    assert a[..] == list;
    SortByCatId(a);
    list := a[..];
  }

  /** A source with exactly one well-formed row gives a one-entry table holding that row's CatID. */
  lemma OneRowCatalog(row: seq<string>, list: seq<Category>)
    requires |row| == 6
    requires SortedByCatId(list) && multiset(list) == multiset(Catalog([row]))
    ensures list == [FromRecord(row)] && list[0].catId == row[2]
  {
    assert [row][..0] == [];
    assert Catalog([row]) == [FromRecord(row)];
    assert |list| == |multiset(list)| == 1;
    assert list[0] in multiset(list);
    assert list == [list[0]];
  }

  // ---------------------------------------------------------------------------
  // Filenames

  /** A UCS filename: five segments, of which UserData is optional. */
  datatype Filename = Filename(
    catId: string,
    fxName: string,
    creatorId: string,
    sourceId: string,
    userData: string)

  /** The filename type's own rule: no segment contains the delimiter `_`. */
  predicate DelimiterFree(f: Filename)
  {
    '_' !in f.catId && '_' !in f.fxName && '_' !in f.creatorId && '_' !in f.sourceId && '_' !in f.userData
  }

  /** The segments Render joins: the four mandatory ones, then UserData only when it is non-empty. */
  function Segments(f: Filename): seq<string>
  {
    [f.catId, f.fxName, f.creatorId, f.sourceId] + (if f.userData != "" then [f.userData] else [])
  }

  /** `CatID_FXName_CreatorID_SourceID[_UserData]` followed by the extension. */
  function Render(f: Filename, ext: string): (name: string)
    ensures |name| >= |ext| && name[|name| - |ext|..] == ext
  {
    Join(Segments(f), '_') + ext
  }

  /** Joining four parts puts one separator between neighbours. */
  lemma JoinFour(p0: string, p1: string, p2: string, p3: string, sep: char)
    ensures Join([p0, p1, p2, p3], sep) == p0 + [sep] + p1 + [sep] + p2 + [sep] + p3
  {
    var s := [p0, p1, p2, p3];
    assert s[1..] == [p1, p2, p3];
    assert s[1..][1..] == [p2, p3];
    assert s[1..][1..][1..] == [p3];
    assert Join([p2, p3], sep) == p2 + [sep] + p3;
    assert Join([p1, p2, p3], sep) == p1 + [sep] + (p2 + [sep] + p3);
  }

  /** Joining five parts puts one separator between neighbours. */
  lemma JoinFive(p0: string, p1: string, p2: string, p3: string, p4: string, sep: char)
    ensures Join([p0, p1, p2, p3, p4], sep) == p0 + [sep] + p1 + [sep] + p2 + [sep] + p3 + [sep] + p4
  {
    var s := [p0, p1, p2, p3, p4];
    assert s[1..] == [p1, p2, p3, p4];
    JoinFour(p1, p2, p3, p4, sep);
  }

  /** With UserData, all five segments are joined by `_` and the extension follows unchanged. */
  lemma RenderWithUserData(f: Filename, ext: string)
    requires f.userData != ""
    ensures Render(f, ext)
         == f.catId + "_" + f.fxName + "_" + f.creatorId + "_" + f.sourceId + "_" + f.userData + ext
  {
    assert Segments(f) == [f.catId, f.fxName, f.creatorId, f.sourceId, f.userData];
    JoinFive(f.catId, f.fxName, f.creatorId, f.sourceId, f.userData, '_');
  }

  /** Without UserData, the four mandatory segments are joined and no trailing `_` is left. */
  lemma RenderWithoutUserData(f: Filename, ext: string)
    requires f.userData == ""
    ensures Render(f, ext) == f.catId + "_" + f.fxName + "_" + f.creatorId + "_" + f.sourceId + ext
  {
    assert Segments(f) == [f.catId, f.fxName, f.creatorId, f.sourceId];
    JoinFour(f.catId, f.fxName, f.creatorId, f.sourceId, '_');
  }

  /**
   * The round trip the delimiter rule exists for: when no segment contains
   * `_`, splitting the rendered name (extension removed) on `_` gives back the
   * segments, five of them with UserData and four without.
   */
  lemma RenderSplits(f: Filename, ext: string)
    requires DelimiterFree(f)
    ensures var name := Render(f, ext);
      && Split(name[..|name| - |ext|], '_') == Segments(f)
      && |Segments(f)| == (if f.userData == "" then 4 else 5)
  {
    var name := Render(f, ext);
    assert name[..|name| - |ext|] == Join(Segments(f), '_');
    SplitJoin(Segments(f), '_');
  }

  /** The first half of the concatenation in the package's rendering test. */
  lemma ExampleConcatenationHead()
    ensures "AMBPark" + "_" + "Central Park Bethesda Fountain" + "_" + "Buddin"
         == "AMBPark_Central Park Bethesda Fountain_Buddin"
  {
    assert "AMBPark" + "_" == "AMBPark_";
    assert "AMBPark_" + "Central Park Bethesda Fountain" == "AMBPark_Central Park Bethesda Fountain";
    assert "AMBPark_Central Park Bethesda Fountain" + "_" == "AMBPark_Central Park Bethesda Fountain_";
  }

  /** The concatenation in the package's rendering test, one piece at a time. */
  lemma ExampleConcatenation()
    ensures "AMBPark" + "_" + "Central Park Bethesda Fountain" + "_" + "Buddin" + "_" + "Phonogrifter" + "_" + "Clippy" + ".wav"
         == "AMBPark_Central Park Bethesda Fountain_Buddin_Phonogrifter_Clippy.wav"
  {
    ExampleConcatenationHead();
    assert "AMBPark_Central Park Bethesda Fountain_Buddin" + "_" == "AMBPark_Central Park Bethesda Fountain_Buddin_";
    assert "AMBPark_Central Park Bethesda Fountain_Buddin_" + "Phonogrifter"
        == "AMBPark_Central Park Bethesda Fountain_Buddin_Phonogrifter";
    assert "AMBPark_Central Park Bethesda Fountain_Buddin_Phonogrifter" + "_"
        == "AMBPark_Central Park Bethesda Fountain_Buddin_Phonogrifter_";
    assert "AMBPark_Central Park Bethesda Fountain_Buddin_Phonogrifter_" + "Clippy"
        == "AMBPark_Central Park Bethesda Fountain_Buddin_Phonogrifter_Clippy";
    assert "AMBPark_Central Park Bethesda Fountain_Buddin_Phonogrifter_Clippy" + ".wav"
        == "AMBPark_Central Park Bethesda Fountain_Buddin_Phonogrifter_Clippy.wav";
  }

  /** The rendering case from the package's test. */
  lemma RenderExample()
    ensures Render(Filename("AMBPark", "Central Park Bethesda Fountain", "Buddin", "Phonogrifter", "Clippy"), ".wav")
         == "AMBPark_Central Park Bethesda Fountain_Buddin_Phonogrifter_Clippy.wav"
  {
    var f := Filename("AMBPark", "Central Park Bethesda Fountain", "Buddin", "Phonogrifter", "Clippy");
    RenderWithUserData(f, ".wav");
    ExampleConcatenation();
  }
}
