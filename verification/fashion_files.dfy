/**
 * The bucketing and ordering core of the Hackers fashion-files tool: spreadsheet
 * rows become fashion entries, the files in an entry's image directory are sorted
 * into the direction buckets `front`, `right`, `back`, `left` and an `extra`
 * bucket, and the buckets are flattened into the order in which the entry's
 * HTML fragment shows its images.
 */
module FashionFiles {
  import opened Wrappers
  import opened Text

  // ---------------------------------------------------------------------------
  // Entries
  // ---------------------------------------------------------------------------

  /** One catalogue record. The source's `type` field is `kind` here (`type` is a Dafny keyword). */
  datatype FashionEntry = FashionEntry(id: string, kind: string, caption: string)

  /** One spreadsheet row, column name to cell; `None` is a null cell (None or NaN). */
  type Row = map<string, Option<string>>

  /** `row.get(column, None)`: a column the row lacks reads as null. */
  function Cell(row: Row, column: string): Option<string>
  {
    if column in row then row[column] else None
  }

  /** `ID`, `TYPE` and `CAPTION` are all non-null. */
  predicate HasRequiredCells(row: Row)
  {
    Cell(row, "ID").Some? && Cell(row, "TYPE").Some? && Cell(row, "CAPTION").Some?
  }

  /** The entry a complete row yields, its cells copied verbatim. */
  function EntryOf(row: Row): FashionEntry
    requires HasRequiredCells(row)
  {
    FashionEntry(Cell(row, "ID").value, Cell(row, "TYPE").value, Cell(row, "CAPTION").value)
  }

  /** The entries a sheet yields: one per complete row, in row order. */
  function FashionEntries(rows: seq<Row>): (entries: seq<FashionEntry>)
    ensures |entries| <= |rows|
  {
    if rows == [] then []
    else
      var last := rows[|rows| - 1];
      FashionEntries(rows[..|rows| - 1]) + if HasRequiredCells(last) then [EntryOf(last)] else []
  }

  /** The positions of the complete rows: increasing, and exactly the complete ones. */
  function KeptRowIndices(rows: seq<Row>): (indices: seq<nat>)
    ensures forall k :: 0 <= k < |indices| ==> indices[k] < |rows| && HasRequiredCells(rows[indices[k]])
    ensures forall k, l :: 0 <= k < l < |indices| ==> indices[k] < indices[l]
    ensures forall i :: 0 <= i < |rows| && HasRequiredCells(rows[i]) ==> i in indices
  {
    if rows == [] then []
    else
      var n := |rows| - 1;
      KeptRowIndices(rows[..n]) + if HasRequiredCells(rows[n]) then [n] else []
  }

  /**
   * The k-th entry is the entry of the k-th complete row: every complete row
   * yields exactly one entry, in row order, and every other row is dropped.
   */
  lemma {:induction false} FashionEntriesFollowKeptRows(rows: seq<Row>)
    ensures |FashionEntries(rows)| == |KeptRowIndices(rows)|
    ensures forall k :: 0 <= k < |FashionEntries(rows)| ==>
              FashionEntries(rows)[k] == EntryOf(rows[KeptRowIndices(rows)[k]])
  {
    if rows != [] {
      var n := |rows| - 1;
      FashionEntriesFollowKeptRows(rows[..n]);
    }
  }

  /** Filtering a sheet piecewise gives the same entries as filtering it whole. */
  lemma {:induction false} FashionEntriesConcat(rows: seq<Row>, more: seq<Row>)
    ensures FashionEntries(rows + more) == FashionEntries(rows) + FashionEntries(more)
    decreases |more|
  {
    if more == [] {
      assert rows + more == rows;
    } else {
      var n := |more| - 1;
      FashionEntriesConcat(rows, more[..n]);
      assert (rows + more)[..|rows + more| - 1] == rows + more[..n];
    }
  }

  /** `dataframe_to_fashion_entries` */
  method DataframeToFashionEntries(dataframe: seq<Row>) returns (fashionEntries: seq<FashionEntry>)
    ensures fashionEntries == FashionEntries(dataframe)
  {
    fashionEntries := [];
    for i := 0 to |dataframe|
      invariant fashionEntries == FashionEntries(dataframe[..i])
    {
      var row := dataframe[i];
      if HasRequiredCells(row) {
        fashionEntries := fashionEntries + [EntryOf(row)];
      }
      assert dataframe[..i + 1][..i] == dataframe[..i];
    }
    assert dataframe[..|dataframe|] == dataframe;
  }

  // ---------------------------------------------------------------------------
  // Image links and directories
  // ---------------------------------------------------------------------------

  /** A directory path as its components. */
  type DirPath = seq<string>

  /** A relative link to an image, as the text of the path. */
  type ImageLink = string

  /** `directory / name`: an empty name leaves the path as it is. */
  function Join(directory: DirPath, name: string): DirPath
  {
    if name == "" then directory else directory + [name]
  }

  /** `parent / character.lower() / entry.type.lower() / entry.id.lower()` */
  function EntryImageDirectory(parent: DirPath, character: string, entry: FashionEntry): DirPath
  {
    Join(Join(Join(parent, Lower(character)), Lower(entry.kind)), Lower(entry.id))
  }

  /** The image directory is looked up case-insensitively: names equal up to case give the same directory. */
  lemma EntryImageDirectoryIgnoresCase(parent: DirPath, character: string, entry: FashionEntry, otherCharacter: string, other: FashionEntry)
    requires Lower(character) == Lower(otherCharacter)
    requires Lower(entry.kind) == Lower(other.kind) && Lower(entry.id) == Lower(other.id)
    ensures EntryImageDirectory(parent, character, entry) == EntryImageDirectory(parent, otherCharacter, other)
  {
  }

  /** With non-empty names, the image directory is three levels below the parent, each name lower-cased. */
  lemma EntryImageDirectoryComponents(parent: DirPath, character: string, entry: FashionEntry)
    requires character != "" && entry.kind != "" && entry.id != ""
    ensures var directory := EntryImageDirectory(parent, character, entry);
            && |directory| == |parent| + 3 && directory[..|parent|] == parent
            && forall i :: |parent| <= i < |directory| ==> forall c :: c in directory[i] ==> !('A' <= c <= 'Z')
  {
    var directory := EntryImageDirectory(parent, character, entry);
    assert directory == parent + [Lower(character), Lower(entry.kind), Lower(entry.id)];
  }

  /** The link template `'../gfx/{}/{}/{}.gif'` as its literal pieces. */
  const LinkTemplate: seq<string> := ["../gfx/", "/", "/", ".gif"]

  /** The link built for one file of the entry's directory: the template filled with four arguments. */
  function ImageLinkOf(character: string, entry: FashionEntry, fileName: string): ImageLink
  {
    Format(LinkTemplate, [character, entry.kind, entry.id, fileName])
  }

  /** The one link every file of an entry receives. */
  function EntryLink(character: string, entry: FashionEntry): ImageLink
  {
    "../gfx/" + character + "/" + entry.kind + "/" + entry.id + ".gif"
  }

  /** The template has three placeholders, so the file name, the fourth argument, never reaches the link. */
  lemma ImageLinkIgnoresFileName(character: string, entry: FashionEntry, fileName: string)
    ensures ImageLinkOf(character, entry, fileName) == EntryLink(character, entry)
  {
    var args := [character, entry.kind, entry.id, fileName];
    FormatIgnoresSurplusArguments(LinkTemplate, args);
    assert args[..3] == [character, entry.kind, entry.id];
    assert LinkTemplate[1..] == ["/", "/", ".gif"];
    assert LinkTemplate[1..][1..] == ["/", ".gif"];
    assert LinkTemplate[1..][1..][1..] == [".gif"];
  }

  // ---------------------------------------------------------------------------
  // Categorising
  // ---------------------------------------------------------------------------

  /** The five keys of the categorised dictionary. */
  datatype Category = Front | Right | Back | Left | Extra

  /** The string key of a category, which is also the prefix a stem must have to be filed under it. */
  function Label(category: Category): string
  {
    match category
    case Front => "front"
    case Right => "right"
    case Back => "back"
    case Left => "left"
    case Extra => "extra"
  }

  /** The directions, in the order `get_image_paths` offers a link to them. */
  const Directions: seq<Category> := [Front, Right, Back, Left]
  /** `('front', 'right', 'back', 'left', 'extra')`, the order of the rendered images. */
  const CategoryOrder: seq<Category> := Directions + [Extra]

  /** Category to the links filed under it. */
  type Buckets = map<Category, seq<ImageLink>>

  /** `buckets.get(category, [])` */
  function Lookup(buckets: Buckets, category: Category): seq<ImageLink>
  {
    if category in buckets then buckets[category] else []
  }

  /** `image_path.stem.lower()` */
  function LowerStem(link: ImageLink): string
  {
    Lower(Stem(link))
  }

  /** Every key other than `category` is present in both maps or in neither, with equal values. */
  ghost predicate SameExcept(before: Buckets, after: Buckets, category: Category)
  {
    forall k :: k != category ==> (k in after <==> k in before) && (k in before ==> after[k] == before[k])
  }

  /** Every direction present holds exactly one link. */
  ghost predicate WellFormed(buckets: Buckets)
  {
    forall d :: d in buckets && d != Extra ==> |buckets[d]| == 1
  }

  /**
   * What `categorize_and_merge_image_path` does to the dictionary, for a link
   * whose lower-cased stem is `lowerStem`: a stem that does not start with the
   * category changes nothing; the first match fills the category, every later
   * one is appended to `extra`.
   */
  function Place(buckets: Buckets, category: Category, lowerStem: string, link: ImageLink): Buckets
  {
    if !StartsWith(lowerStem, Label(category)) then buckets
    else if category !in buckets then buckets[category := [link]]
    else buckets[Extra := Lookup(buckets, Extra) + [link]]
  }

  /** `categorize_and_merge_image_path` as a function of the dictionary it updates. */
  function Merge(buckets: Buckets, category: Category, link: ImageLink): Buckets
  {
    Place(buckets, category, LowerStem(link), link)
  }

  /**
   * The three outcomes of one merge: a stem that does not start with the
   * category's label leaves the dictionary as it was; the first match creates
   * the category's bucket holding just the link; a later match for a direction
   * keeps that bucket and appends the link to `extra`. No other key changes,
   * and every direction still holds one link.
   */
  lemma MergeEffect(buckets: Buckets, category: Category, link: ImageLink)
    ensures var merged := Merge(buckets, category, link);
            var matched := StartsWith(LowerStem(link), Label(category));
            && (!matched ==> merged == buckets)
            && (matched && category !in buckets ==>
                  category in merged && merged[category] == [link] && SameExcept(buckets, merged, category))
            && (matched && category in buckets && category != Extra ==>
                  && category in merged && merged[category] == buckets[category]
                  && Lookup(merged, Extra) == Lookup(buckets, Extra) + [link]
                  && SameExcept(buckets, merged, Extra))
            && (category != Extra && WellFormed(buckets) ==> WellFormed(merged))
  {
  }

  /** The dictionary that `get_image_paths` builds and `categorize_and_merge_image_path` updates in place. */
  class CategorizedImagePaths {
    var paths: Buckets

    constructor ()
      ensures paths == map[]
    {
      paths := map[];
    }
  }

  /** `categorize_and_merge_image_path` */
  method CategorizeAndMergeImagePath(category: Category, imagePath: ImageLink, mergedImagePaths: CategorizedImagePaths)
    modifies mergedImagePaths
    ensures mergedImagePaths.paths == Merge(old(mergedImagePaths.paths), category, imagePath)
  {
    if !EndsWith(Stem(imagePath), "S") {
      // `pass`: a stem without a trailing `S` is treated like any other
    }
    if StartsWith(Lower(Stem(imagePath)), Label(category)) {
      if category !in mergedImagePaths.paths {
        mergedImagePaths.paths := mergedImagePaths.paths[category := [imagePath]];
      } else {
        mergedImagePaths.paths := mergedImagePaths.paths[Extra := Lookup(mergedImagePaths.paths, Extra) + [imagePath]];
      }
    }
  }

  /**
   * A trailing `S` on the stem does not matter: a link whose stem ends in `S`
   * and the same link with a lower-case `s` there are filed identically.
   */
  lemma TrailingSHasNoEffect(buckets: Buckets, category: Category, directory: string, base: string)
    requires '/' !in base
    ensures var withS := directory + "/" + base + "S.gif";
            var withoutS := directory + "/" + base + "s.gif";
            && EndsWith(Stem(withS), "S") && !EndsWith(Stem(withoutS), "S")
            && Merge(buckets, category, withS).Keys == Merge(buckets, category, withoutS).Keys
            && forall k :: k in Merge(buckets, category, withS) ==>
                 |Merge(buckets, category, withS)[k]| == |Merge(buckets, category, withoutS)[k]|
  {
    var withS := directory + "/" + base + "S.gif";
    var withoutS := directory + "/" + base + "s.gif";
    TrailingSStems(directory, base);
    MergeSeesOnlyTheStem(buckets, category, withS, withoutS);
  }

  /** The stems of `base` + `S` and `base` + `s` differ in their last letter only, which lower-casing erases. */
  lemma TrailingSStems(directory: string, base: string)
    requires '/' !in base
    ensures var withS := directory + "/" + base + "S.gif";
            var withoutS := directory + "/" + base + "s.gif";
            && EndsWith(Stem(withS), "S") && !EndsWith(Stem(withoutS), "S")
            && LowerStem(withS) == LowerStem(withoutS)
  {
    var withS := directory + "/" + base + "S.gif";
    var withoutS := directory + "/" + base + "s.gif";
    assert withS == directory + "/" + (base + "S") + "." + "gif";
    assert withoutS == directory + "/" + (base + "s") + "." + "gif";
    StemOfFileName(directory, base + "S", "gif");
    StemOfFileName(directory, base + "s", "gif");
    LowerConcat(base, "S");
    LowerConcat(base, "s");
    assert Lower("S") == Lower("s");
  }

  /** Merging two links whose lower-cased stems agree gives the same keys and bucket sizes. */
  lemma MergeSeesOnlyTheStem(buckets: Buckets, category: Category, link: ImageLink, other: ImageLink)
    requires LowerStem(link) == LowerStem(other)
    ensures Merge(buckets, category, link).Keys == Merge(buckets, category, other).Keys
    ensures forall k :: k in Merge(buckets, category, link) ==>
              |Merge(buckets, category, link)[k]| == |Merge(buckets, category, other)[k]|
  {
  }

  /** The applications of `categorize_and_merge_image_path` for one link, one per category in turn. */
  function MergeCategories(buckets: Buckets, categories: seq<Category>, lowerStem: string, link: ImageLink): Buckets
  {
    if categories == [] then buckets
    else
      var n := |categories| - 1;
      Place(MergeCategories(buckets, categories[..n], lowerStem, link), categories[n], lowerStem, link)
  }

  /** How many of the categories' labels the name starts with. */
  function LabelsMatched(name: string, categories: seq<Category>): (count: nat)
    ensures count <= |categories|
  {
    if categories == [] then 0
    else
      var n := |categories| - 1;
      LabelsMatched(name, categories[..n]) + if StartsWith(name, Label(categories[n])) then 1 else 0
  }

  /** How many of `categories` match the stem and already have a bucket: each such match is demoted to `extra`. */
  function Demoted(buckets: Buckets, categories: seq<Category>, lowerStem: string): nat
  {
    if categories == [] then 0
    else
      var n := |categories| - 1;
      Demoted(buckets, categories[..n], lowerStem) + if StartsWith(lowerStem, Label(categories[n])) && categories[n] in buckets then 1 else 0
  }

  /** `n` copies of one link. */
  function Repeat(link: ImageLink, n: nat): (links: seq<ImageLink>)
    ensures |links| == n
  {
    if n == 0 then [] else Repeat(link, n - 1) + [link]
  }

  lemma {:induction false} RepeatConcat(link: ImageLink, m: nat, n: nat)
    ensures Repeat(link, m) + Repeat(link, n) == Repeat(link, m + n)
  {
    if n > 0 {
      RepeatConcat(link, m, n - 1);
    }
  }

  /**
   * The four labels start with four different letters, so no name starts with
   * two of them: a link is filed under at most one direction.
   */
  lemma AtMostOneDirectionMatches(name: string)
    ensures LabelsMatched(name, Directions) <= 1
  {
    var front := if StartsWith(name, "front") then 1 else 0;
    var right := if StartsWith(name, "right") then 1 else 0;
    var back := if StartsWith(name, "back") then 1 else 0;
    var left := if StartsWith(name, "left") then 1 else 0;
    assert LabelsMatched(name, [Front]) == front by { assert [Front][..0] == []; }
    assert LabelsMatched(name, [Front, Right]) == front + right by { assert [Front, Right][..1] == [Front]; }
    assert LabelsMatched(name, [Front, Right, Back]) == front + right + back by {
      assert [Front, Right, Back][..2] == [Front, Right];
    }
    assert LabelsMatched(name, Directions) == front + right + back + left by {
      assert Directions[..3] == [Front, Right, Back];
    }
    if front == 1 { assert name[0] == 'f'; }
    if right == 1 { assert name[0] == 'r'; }
    if back == 1 { assert name[0] == 'b'; }
    if left == 1 { assert name[0] == 'l'; }
  }

  /** Merging under categories other than `key` and `extra` leaves the bucket of `key` as it was. */
  lemma {:induction false} MergeCategoriesKeepsOthers(buckets: Buckets, categories: seq<Category>, lowerStem: string, link: ImageLink, key: Category)
    requires key !in categories && key != Extra
    ensures var merged := MergeCategories(buckets, categories, lowerStem, link);
            (key in merged <==> key in buckets) && Lookup(merged, key) == Lookup(buckets, key)
  {
    if categories != [] {
      var n := |categories| - 1;
      assert key != categories[n];
      MergeCategoriesKeepsOthers(buckets, categories[..n], lowerStem, link, key);
    }
  }

  /**
   * Merging under distinct categories fills the bucket of a matching category
   * that had none with `[link]`, and leaves every other category's bucket alone.
   */
  lemma {:induction false} MergeCategoriesOwn(buckets: Buckets, categories: seq<Category>, lowerStem: string, link: ImageLink, key: Category)
    requires Extra !in categories
    requires forall i, j :: 0 <= i < j < |categories| ==> categories[i] != categories[j]
    requires key in categories
    ensures var merged := MergeCategories(buckets, categories, lowerStem, link);
            && (key in merged <==> key in buckets || StartsWith(lowerStem, Label(key)))
            && Lookup(merged, key) == if StartsWith(lowerStem, Label(key)) && key !in buckets then [link] else Lookup(buckets, key)
  {
    var n := |categories| - 1;
    var init, last := categories[..n], categories[n];
    assert last !in init by {
      forall j | 0 <= j < n ensures init[j] != last { }
    }
    var before := MergeCategories(buckets, init, lowerStem, link);
    assert MergeCategories(buckets, categories, lowerStem, link) == Place(before, last, lowerStem, link);
    if key == last {
      MergeCategoriesKeepsOthers(buckets, init, lowerStem, link, key);
    } else {
      assert key in init by { assert categories == init + [last]; }
      MergeCategoriesOwn(buckets, init, lowerStem, link, key);
      assert last != Extra;
    }
  }

  /** Each matching category that already had a bucket sends the link to `extra`, in turn. */
  lemma {:induction false} MergeCategoriesExtra(buckets: Buckets, categories: seq<Category>, lowerStem: string, link: ImageLink)
    requires Extra !in categories
    requires forall i, j :: 0 <= i < j < |categories| ==> categories[i] != categories[j]
    ensures var merged := MergeCategories(buckets, categories, lowerStem, link);
            && Lookup(merged, Extra) == Lookup(buckets, Extra) + Repeat(link, Demoted(buckets, categories, lowerStem))
            && (Extra in merged <==> Extra in buckets || Demoted(buckets, categories, lowerStem) > 0)
  {
    if categories != [] {
      var n := |categories| - 1;
      var init, last := categories[..n], categories[n];
      assert last !in init by {
        forall j | 0 <= j < n ensures init[j] != last { }
      }
      MergeCategoriesExtra(buckets, init, lowerStem, link);
      MergeCategoriesKeepsOthers(buckets, init, lowerStem, link, last);
      var before := MergeCategories(buckets, init, lowerStem, link);
      var demoted := Demoted(buckets, init, lowerStem);
      if StartsWith(lowerStem, Label(last)) && last in before {
        assert Lookup(Place(before, last, lowerStem, link), Extra) == Lookup(before, Extra) + [link];
        assert Repeat(link, demoted + 1) == Repeat(link, demoted) + [link];
        assert Lookup(buckets, Extra) + Repeat(link, demoted) + [link] == Lookup(buckets, Extra) + (Repeat(link, demoted) + [link]);
      } else {
        assert Lookup(Place(before, last, lowerStem, link), Extra) == Lookup(before, Extra);
      }
    }
  }

  /** When a category is present exactly if `present` holds and it matches, the demotions are all the matches or none. */
  lemma {:induction false} DemotedCount(buckets: Buckets, categories: seq<Category>, lowerStem: string, present: bool)
    requires forall c :: c in categories ==> (c in buckets <==> present && StartsWith(lowerStem, Label(c)))
    ensures Demoted(buckets, categories, lowerStem) == if present then LabelsMatched(lowerStem, categories) else 0
  {
    if categories != [] {
      var n := |categories| - 1;
      assert forall c :: c in categories[..n] ==> c in categories;
      DemotedCount(buckets, categories[..n], lowerStem, present);
    }
  }

  /**
   * The buckets after `files` files that all received `link`, whose lower-cased
   * stem is `lowerStem`: each matching direction holds `[link]`, no other
   * direction is present, and `extra` holds the link once for every file after
   * the first and every direction it matches.
   */
  ghost predicate Categorized(buckets: Buckets, files: nat, lowerStem: string, link: ImageLink)
  {
    && (forall d {:trigger Lookup(buckets, d)} :: d != Extra ==>
          && (d in buckets <==> files > 0 && StartsWith(lowerStem, Label(d)))
          && Lookup(buckets, d) == if files > 0 && StartsWith(lowerStem, Label(d)) then [link] else [])
    && Lookup(buckets, Extra) ==
         Repeat(link, if files == 0 then 0 else (files - 1) * LabelsMatched(lowerStem, Directions))
    && (Extra in buckets <==> Lookup(buckets, Extra) != [])
  }

  lemma DirectionsAreDistinctLabels()
    ensures Extra !in Directions
    ensures forall i, j :: 0 <= i < j < |Directions| ==> Directions[i] != Directions[j]
  {
  }

  /** Running the four categories for one more file with the same link keeps the buckets categorised. */
  lemma CategorizedStep(buckets: Buckets, files: nat, lowerStem: string, link: ImageLink)
    requires Categorized(buckets, files, lowerStem, link)
    ensures Categorized(MergeCategories(buckets, Directions, lowerStem, link), files + 1, lowerStem, link)
  {
    CategorizedStepDirections(buckets, files, lowerStem, link);
    CategorizedStepExtra(buckets, files, lowerStem, link);
  }

  /** After one more file, every direction the stem matches holds the link, and no other direction is present. */
  lemma CategorizedStepDirections(buckets: Buckets, files: nat, lowerStem: string, link: ImageLink)
    requires Categorized(buckets, files, lowerStem, link)
    ensures var merged := MergeCategories(buckets, Directions, lowerStem, link);
            forall d :: d != Extra ==>
              && (d in merged <==> StartsWith(lowerStem, Label(d)))
              && Lookup(merged, d) == if StartsWith(lowerStem, Label(d)) then [link] else []
  {
    DirectionsAreDistinctLabels();
    forall d | d != Extra
      ensures var merged := MergeCategories(buckets, Directions, lowerStem, link);
              && (d in merged <==> StartsWith(lowerStem, Label(d)))
              && Lookup(merged, d) == if StartsWith(lowerStem, Label(d)) then [link] else []
    {
      assert d in Directions by { assert d == Front || d == Right || d == Back || d == Left; }
      MergeCategoriesOwn(buckets, Directions, lowerStem, link, d);
    }
  }

  /** After one more file, `extra` holds the link (files x matched directions) times. */
  lemma CategorizedStepExtra(buckets: Buckets, files: nat, lowerStem: string, link: ImageLink)
    requires Categorized(buckets, files, lowerStem, link)
    ensures var merged := MergeCategories(buckets, Directions, lowerStem, link);
            && Lookup(merged, Extra) == Repeat(link, files * LabelsMatched(lowerStem, Directions))
            && (Extra in merged <==> Lookup(merged, Extra) != [])
  {
    DirectionsAreDistinctLabels();
    MergeCategoriesExtra(buckets, Directions, lowerStem, link);
    forall c | c in Directions
      ensures c in buckets <==> files > 0 && StartsWith(lowerStem, Label(c))
    {
      assert Lookup(buckets, c) == if files > 0 && StartsWith(lowerStem, Label(c)) then [link] else [];
    }
    DemotedCount(buckets, Directions, lowerStem, files > 0);
    var hits := LabelsMatched(lowerStem, Directions);
    var before := if files == 0 then 0 else (files - 1) * hits;
    var demoted := Demoted(buckets, Directions, lowerStem);
    RepeatConcat(link, before, demoted);
    if files > 0 {
      OneMoreFile(files - 1, hits);
    }
  }

  /** One more file adds one more set of matches. */
  lemma OneMoreFile(files: nat, hits: nat)
    ensures 0 <= files * hits
    ensures files * hits + hits == (files + 1) * hits
  {
  }

  /** The applications of `categorize_and_merge_image_path` for the files of a directory, in listing order. */
  function MergeDirectory(character: string, entry: FashionEntry, fileNames: seq<string>): Buckets
  {
    if fileNames == [] then map[]
    else
      var n := |fileNames| - 1;
      var link := ImageLinkOf(character, entry, fileNames[n]);
      MergeCategories(MergeDirectory(character, entry, fileNames[..n]), Directions, LowerStem(link), link)
  }

  lemma {:induction false} MergeDirectoryCategorized(character: string, entry: FashionEntry, fileNames: seq<string>)
    ensures var link := EntryLink(character, entry);
            Categorized(MergeDirectory(character, entry, fileNames), |fileNames|, LowerStem(link), link)
  {
    if fileNames != [] {
      var n := |fileNames| - 1;
      var link := EntryLink(character, entry);
      MergeDirectoryCategorized(character, entry, fileNames[..n]);
      ImageLinkIgnoresFileName(character, entry, fileNames[n]);
      CategorizedStep(MergeDirectory(character, entry, fileNames[..n]), n, LowerStem(link), link);
    }
  }

  /** One more file of the listing is one more round of the four directions. */
  lemma MergeDirectoryStep(character: string, entry: FashionEntry, fileNames: seq<string>, i: nat)
    requires i < |fileNames|
    ensures var link := ImageLinkOf(character, entry, fileNames[i]);
            MergeDirectory(character, entry, fileNames[..i + 1]) ==
              MergeCategories(MergeDirectory(character, entry, fileNames[..i]), Directions, LowerStem(link), link)
  {
    assert fileNames[..i + 1][..i] == fileNames[..i];
  }

  /**
   * What `get_image_paths` returns, with the file system given as the listing of
   * every existing directory: nothing for a missing directory, otherwise every
   * entry of the listing merged under the four directions in turn.
   */
  function ImagePaths(character: string, entry: FashionEntry, parent: DirPath, fileSystem: map<DirPath, seq<string>>): Buckets
  {
    var directory := EntryImageDirectory(parent, character, entry);
    if directory !in fileSystem then map[] else MergeDirectory(character, entry, fileSystem[directory])
  }

  /** The number of entries in the entry's image directory, none when it is missing. */
  function ListingSize(character: string, entry: FashionEntry, parent: DirPath, fileSystem: map<DirPath, seq<string>>): nat
  {
    var directory := EntryImageDirectory(parent, character, entry);
    if directory in fileSystem then |fileSystem[directory]| else 0
  }

  /** The inner loop of `get_image_paths`: one link offered to each direction in turn. */
  method CategorizeUnderDirections(relativePath: ImageLink, imagePaths: CategorizedImagePaths)
    modifies imagePaths
    ensures imagePaths.paths == MergeCategories(old(imagePaths.paths), Directions, LowerStem(relativePath), relativePath)
  {
    for j := 0 to |Directions|
      invariant imagePaths.paths == MergeCategories(old(imagePaths.paths), Directions[..j], LowerStem(relativePath), relativePath)
    {
      CategorizeAndMergeImagePath(Directions[j], relativePath, imagePaths);
      assert Directions[..j + 1][..j] == Directions[..j];
    }
    assert Directions[..|Directions|] == Directions;
  }

  /** `get_image_paths` */
  method GetImagePaths(character: string, entry: FashionEntry, parentImageDirectory: DirPath, fileSystem: map<DirPath, seq<string>>)
    returns (imagePaths: CategorizedImagePaths)
    ensures fresh(imagePaths)
    ensures imagePaths.paths == ImagePaths(character, entry, parentImageDirectory, fileSystem)
  {
    imagePaths := new CategorizedImagePaths();
    var entryImageDirectory := EntryImageDirectory(parentImageDirectory, character, entry);
    if entryImageDirectory !in fileSystem {
      return;
    }
    var listing := fileSystem[entryImageDirectory];
    for i := 0 to |listing|
      invariant imagePaths.paths == MergeDirectory(character, entry, listing[..i])
    {
      var relativePath := ImageLinkOf(character, entry, listing[i]);
      CategorizeUnderDirections(relativePath, imagePaths);
      MergeDirectoryStep(character, entry, listing, i);
    }
    assert listing[..|listing|] == listing;
  }

  /**
   * The shape of `get_image_paths`' result: empty when the directory is missing
   * or empty; a direction present exactly when the stem of the entry's link
   * starts with its label, holding that one link; and `extra` holding the link
   * (files - 1) times per matched direction. Keys are categories by type.
   */
  lemma ImagePathsShape(character: string, entry: FashionEntry, parent: DirPath, fileSystem: map<DirPath, seq<string>>)
    ensures var imagePaths := ImagePaths(character, entry, parent, fileSystem);
            var files := ListingSize(character, entry, parent, fileSystem);
            var link := EntryLink(character, entry);
            && (files == 0 ==> imagePaths == map[])
            && Categorized(imagePaths, files, LowerStem(link), link)
  {
    var directory := EntryImageDirectory(parent, character, entry);
    if directory in fileSystem {
      MergeDirectoryCategorized(character, entry, fileSystem[directory]);
    }
  }

  /**
   * For an id without `/`, the lower-cased stem of
   * the entry's link is the lower-cased id; an empty id leaves `.gif` as the stem.
   */
  lemma EntryLinkStem(character: string, entry: FashionEntry)
    requires '/' !in entry.id
    ensures LowerStem(EntryLink(character, entry)) == if entry.id == "" then ".gif" else Lower(entry.id)
  {
    var directory := "../gfx/" + character + "/" + entry.kind;
    assert EntryLink(character, entry) == directory + "/" + entry.id + "." + "gif";
    StemOfFileName(directory, entry.id, "gif");
    assert Lower(".gif") == ".gif";
  }

  lemma {:induction false} LabelsMatchedAgree(name: string, other: string, categories: seq<Category>)
    requires forall c :: c in categories ==> (StartsWith(name, Label(c)) <==> StartsWith(other, Label(c)))
    ensures LabelsMatched(name, categories) == LabelsMatched(other, categories)
  {
    if categories != [] {
      var n := |categories| - 1;
      assert forall c :: c in categories[..n] ==> c in categories;
      LabelsMatchedAgree(name, other, categories[..n]);
    }
  }

  /**
   * With an id without `/`, every file of the directory is filed under the directions
   * the lower-cased id starts with, and `extra` holds (files - 1) x (number of
   * such directions) copies of the entry's link.
   */
  lemma ExtraBucketSize(character: string, entry: FashionEntry, parent: DirPath, fileSystem: map<DirPath, seq<string>>)
    requires '/' !in entry.id
    ensures var imagePaths := ImagePaths(character, entry, parent, fileSystem);
            var files := ListingSize(character, entry, parent, fileSystem);
            && (forall d :: d != Extra ==> (d in imagePaths <==> files > 0 && StartsWith(Lower(entry.id), Label(d))))
            && |Lookup(imagePaths, Extra)| == if files == 0 then 0 else (files - 1) * LabelsMatched(Lower(entry.id), Directions)
  {
    var link := EntryLink(character, entry);
    var imagePaths := ImagePaths(character, entry, parent, fileSystem);
    var files := ListingSize(character, entry, parent, fileSystem);
    ImagePathsShape(character, entry, parent, fileSystem);
    EntryLinkLabels(character, entry);
    CategorizedByLabels(imagePaths, files, LowerStem(link), Lower(entry.id), link);
    forall d | d != Extra
      ensures d in imagePaths <==> files > 0 && StartsWith(Lower(entry.id), Label(d))
    {
      assert Lookup(imagePaths, d) == if files > 0 && StartsWith(Lower(entry.id), Label(d)) then [link] else [];
    }
  }

  /** With an id without `/`, the entry's link starts with a label exactly when the lower-cased id does. */
  lemma EntryLinkLabels(character: string, entry: FashionEntry)
    requires '/' !in entry.id
    ensures forall d: Category :: StartsWith(LowerStem(EntryLink(character, entry)), Label(d)) <==> StartsWith(Lower(entry.id), Label(d))
  {
    EntryLinkStem(character, entry);
    var stem := LowerStem(EntryLink(character, entry));
    if entry.id == "" {
      forall d: Category
        ensures !StartsWith(stem, Label(d))
      {
        assert stem[0] == '.';
      }
    }
  }

  /** Whether buckets are categorised depends on the stem only through the labels it starts with. */
  lemma CategorizedByLabels(buckets: Buckets, files: nat, lowerStem: string, other: string, link: ImageLink)
    requires Categorized(buckets, files, lowerStem, link)
    requires forall d: Category :: StartsWith(lowerStem, Label(d)) <==> StartsWith(other, Label(d))
    ensures Categorized(buckets, files, other, link)
  {
    LabelsMatchedAgree(lowerStem, other, Directions);
    forall d | d != Extra
      ensures && (d in buckets <==> files > 0 && StartsWith(other, Label(d)))
              && Lookup(buckets, d) == if files > 0 && StartsWith(other, Label(d)) then [link] else []
    {
      assert Lookup(buckets, d) == if files > 0 && StartsWith(lowerStem, Label(d)) then [link] else [];
    }
  }

  /**
   * File names never reach the buckets: when the lower-cased id starts with no
   * direction, nothing is filed, whatever the directory holds (a directory of
   * `frontS.png`, `rightS.png`, ... for entry `A1` yields an empty dictionary).
   */
  lemma UnmatchedIdFilesNothing(character: string, entry: FashionEntry, parent: DirPath, fileSystem: map<DirPath, seq<string>>)
    requires '/' !in entry.id
    requires forall d :: d != Extra ==> !StartsWith(Lower(entry.id), Label(d))
    ensures ImagePaths(character, entry, parent, fileSystem) == map[]
  {
    var imagePaths := ImagePaths(character, entry, parent, fileSystem);
    ImagePathsShape(character, entry, parent, fileSystem);
    ExtraBucketSize(character, entry, parent, fileSystem);
    NoDirectionMatched(Lower(entry.id));
    assert Lookup(imagePaths, Extra) == [];
  }

  /** A name that starts with none of the four direction labels matches none of them. */
  lemma NoDirectionMatched(name: string)
    requires forall d :: d != Extra ==> !StartsWith(name, Label(d))
    ensures LabelsMatched(name, Directions) == 0
  {
    assert !StartsWith(name, Label(Front)) && !StartsWith(name, Label(Right));
    assert !StartsWith(name, Label(Back)) && !StartsWith(name, Label(Left));
    assert LabelsMatched(name, [Front]) == 0 by { assert [Front][..0] == []; }
    assert LabelsMatched(name, [Front, Right]) == 0 by { assert [Front, Right][..1] == [Front]; }
    assert LabelsMatched(name, [Front, Right, Back]) == 0 by {
      assert [Front, Right, Back][..2] == [Front, Right];
    }
    assert Directions[..3] == [Front, Right, Back];
  }

  // ---------------------------------------------------------------------------
  // Flattening and rendering
  // ---------------------------------------------------------------------------

  /** The buckets of `categories`, concatenated in that order; an absent bucket adds nothing. */
  function Flatten(buckets: Buckets, categories: seq<Category>): seq<ImageLink>
  {
    if categories == [] then []
    else
      var n := |categories| - 1;
      Flatten(buckets, categories[..n]) + Lookup(buckets, categories[n])
  }

  /** The flattened list is front, right, back, left, extra, one after the other, and as long as all five. */
  lemma FlattenInCategoryOrder(buckets: Buckets)
    ensures Flatten(buckets, CategoryOrder) ==
              Lookup(buckets, Front) + Lookup(buckets, Right) + Lookup(buckets, Back) +
              Lookup(buckets, Left) + Lookup(buckets, Extra)
    ensures |Flatten(buckets, CategoryOrder)| ==
              |Lookup(buckets, Front)| + |Lookup(buckets, Right)| + |Lookup(buckets, Back)| +
              |Lookup(buckets, Left)| + |Lookup(buckets, Extra)|
  {
    assert Flatten(buckets, [Front]) == Lookup(buckets, Front) by { assert [Front][..0] == []; }
    assert Flatten(buckets, [Front, Right]) == Lookup(buckets, Front) + Lookup(buckets, Right) by {
      assert [Front, Right][..1] == [Front];
    }
    assert Flatten(buckets, [Front, Right, Back]) == Flatten(buckets, [Front, Right]) + Lookup(buckets, Back) by {
      assert [Front, Right, Back][..2] == [Front, Right];
    }
    assert Flatten(buckets, Directions) == Flatten(buckets, [Front, Right, Back]) + Lookup(buckets, Left) by {
      assert Directions[..3] == [Front, Right, Back];
    }
    assert CategoryOrder[..4] == Directions;
  }

  /** A link is in the flattened list exactly when it is in the bucket of one of the categories. */
  lemma {:induction false} FlattenMembers(buckets: Buckets, categories: seq<Category>, link: ImageLink)
    ensures link in Flatten(buckets, categories) <==>
              exists i :: 0 <= i < |categories| && link in Lookup(buckets, categories[i])
  {
    if categories != [] {
      var n := |categories| - 1;
      FlattenMembers(buckets, categories[..n], link);
      if link in Lookup(buckets, categories[n]) {
        assert 0 <= n < |categories| && link in Lookup(buckets, categories[n]);
      }
      if exists i :: 0 <= i < |categories| && link in Lookup(buckets, categories[i]) {
        var i :| 0 <= i < |categories| && link in Lookup(buckets, categories[i]);
        if i < n {
          assert categories[..n][i] == categories[i];
        }
      }
    }
  }

  /** On categorised buckets, the direction buckets flatten to one link per matched direction, or to nothing without files. */
  lemma {:induction false} FlattenCategorizedDirections(buckets: Buckets, filed: bool, lowerStem: string, link: ImageLink, categories: seq<Category>)
    requires forall d {:trigger Lookup(buckets, d)} :: d != Extra ==> Lookup(buckets, d) == if filed && StartsWith(lowerStem, Label(d)) then [link] else []
    requires forall i :: 0 <= i < |categories| ==> categories[i] != Extra
    ensures Flatten(buckets, categories) == if filed then Repeat(link, LabelsMatched(lowerStem, categories)) else []
  {
    if categories != [] {
      var n := |categories| - 1;
      var last := categories[n];
      assert forall i :: 0 <= i < n ==> categories[..n][i] == categories[i];
      FlattenCategorizedDirections(buckets, filed, lowerStem, link, categories[..n]);
      assert Flatten(buckets, categories) == Flatten(buckets, categories[..n]) + Lookup(buckets, last);
      assert Lookup(buckets, last) == if filed && StartsWith(lowerStem, Label(last)) then [link] else [];
      if filed {
        var before := LabelsMatched(lowerStem, categories[..n]);
        if StartsWith(lowerStem, Label(last)) {
          assert LabelsMatched(lowerStem, categories) == before + 1;
          assert Repeat(link, before + 1) == Repeat(link, before) + [link];
        } else {
          assert LabelsMatched(lowerStem, categories) == before;
        }
      }
    }
  }

  /**
   * Categorised buckets flatten to the link once per file and per matched
   * direction: the direction buckets give one copy per match, `extra` the rest.
   */
  lemma FlattenCategorized(buckets: Buckets, files: nat, lowerStem: string, link: ImageLink)
    requires Categorized(buckets, files, lowerStem, link)
    ensures Flatten(buckets, CategoryOrder) == Repeat(link, files * LabelsMatched(lowerStem, Directions))
  {
    var hits := LabelsMatched(lowerStem, Directions);
    FlattenCategorizedDirections(buckets, files > 0, lowerStem, link, Directions);
    assert CategoryOrder[..4] == Directions;
    assert Flatten(buckets, CategoryOrder) == Flatten(buckets, Directions) + Lookup(buckets, Extra);
    if files > 0 {
      OneMoreFile(files - 1, hits);
      var extra := (files - 1) * hits;
      assert Lookup(buckets, Extra) == Repeat(link, extra);
      RepeatConcat(link, hits, extra);
    } else {
      assert files * hits == 0;
    }
  }

  /**
   * The images an entry's fragment shows: its one link, repeated once per file
   * and per matched direction, so the flattened list is exactly as long as the
   * number of successful categorisations.
   */
  lemma RenderedImageSources(character: string, entry: FashionEntry, parent: DirPath, fileSystem: map<DirPath, seq<string>>)
    requires '/' !in entry.id
    ensures Flatten(ImagePaths(character, entry, parent, fileSystem), CategoryOrder) ==
              Repeat(EntryLink(character, entry), ListingSize(character, entry, parent, fileSystem) * LabelsMatched(Lower(entry.id), Directions))
  {
    var link := EntryLink(character, entry);
    var imagePaths := ImagePaths(character, entry, parent, fileSystem);
    var files := ListingSize(character, entry, parent, fileSystem);
    ImagePathsShape(character, entry, parent, fileSystem);
    EntryLinkLabels(character, entry);
    CategorizedByLabels(imagePaths, files, LowerStem(link), Lower(entry.id), link);
    FlattenCategorized(imagePaths, files, Lower(entry.id), link);
  }

  /** What the HTML template receives: the caption and the image sources in display order. */
  datatype HtmlFragment = HtmlFragment(caption: string, imageSources: seq<ImageLink>)

  /** `render_fashion_entry_html`, up to the template: the caption and the flattened buckets. The character is unused. */
  method RenderFashionEntryHtml(character: string, fashionEntry: FashionEntry, imagePaths: CategorizedImagePaths)
    returns (html: HtmlFragment)
    ensures html.caption == fashionEntry.caption
    ensures html.imageSources == Flatten(imagePaths.paths, CategoryOrder)
  {
    var sortedImagePaths: seq<ImageLink> := [];
    for i := 0 to |CategoryOrder|
      invariant sortedImagePaths == Flatten(imagePaths.paths, CategoryOrder[..i])
    {
      sortedImagePaths := sortedImagePaths + Lookup(imagePaths.paths, CategoryOrder[i]);
      assert CategoryOrder[..i + 1][..i] == CategoryOrder[..i];
    }
    assert CategoryOrder[..|CategoryOrder|] == CategoryOrder;
    html := HtmlFragment(fashionEntry.caption, sortedImagePaths);
  }

  // ---------------------------------------------------------------------------
  // Output naming
  // ---------------------------------------------------------------------------

  /** `output_directory / character.capitalize() / (entry.id + '.txt')` */
  function EntryOutputPath(outputDirectory: DirPath, character: string, entry: FashionEntry): (path: DirPath)
    ensures |path| > 0 && path[|path| - 1] == entry.id + ".txt"
    ensures path[..|path| - 1] == Join(outputDirectory, Capitalize(character))
  {
    Join(Join(outputDirectory, Capitalize(character)), entry.id + ".txt")
  }

  /** Two entries of one character get the same output path exactly when their ids are equal. */
  lemma OutputPathsCollideExactlyOnId(outputDirectory: DirPath, character: string, entry: FashionEntry, other: FashionEntry)
    ensures (EntryOutputPath(outputDirectory, character, entry) == EntryOutputPath(outputDirectory, character, other))
            <==> entry.id == other.id
  {
    var p, q := EntryOutputPath(outputDirectory, character, entry), EntryOutputPath(outputDirectory, character, other);
    if p == q {
      assert entry.id + ".txt" == other.id + ".txt";
      assert entry.id == (entry.id + ".txt")[..|entry.id|];
      assert other.id == (other.id + ".txt")[..|other.id|];
    }
  }

  /** Sheet names that differ only in case share one output directory. */
  lemma OutputDirectoryIgnoresCase(outputDirectory: DirPath, character: string, other: string, entry: FashionEntry)
    requires Lower(character) == Lower(other)
    ensures EntryOutputPath(outputDirectory, character, entry) == EntryOutputPath(outputDirectory, other, entry)
  {
    CapitalizeIgnoresCase(character, other);
  }
}
