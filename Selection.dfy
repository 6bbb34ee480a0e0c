/**
 * Candidate selection of the downloader (project/scripts/download_images.py):
 * the classification and artist filters, the two left merges that enrich each
 * image row, and the pipeline of `download_dataset` that yields the candidate list.
 */
module Selection {
  import opened Wrappers
  import opened Seqs
  import opened Text
  import opened Tables

  // ---------------------------------------------------------------------------
  // filter_by_classification
  // ---------------------------------------------------------------------------

  /** `classification.isin(allowed)` when a list is given; an empty list restricts nothing. */
  predicate ClassificationAllowed(o: ObjectRow, allowed: seq<string>) {
    |allowed| == 0 || (o.classification.Some? && o.classification.value in allowed)
  }

  /** `~subclassification.isin(excluded)`: a missing subclassification is never excluded. */
  predicate SubclassificationKept(o: ObjectRow, excluded: seq<string>) {
    o.subclassification.None? || o.subclassification.value !in excluded
  }

  predicate ObjectSelected(o: ObjectRow, allowed: seq<string>, excluded: seq<string>) {
    ClassificationAllowed(o, allowed) && SubclassificationKept(o, excluded)
  }

  /** `objects['objectid'].unique()` after both restrictions. */
  function SelectedObjectIds(objects: seq<ObjectRow>, allowed: seq<string>, excluded: seq<string>): set<int> {
    set o | o in objects && ObjectSelected(o, allowed, excluded) :: o.objectId
  }

  /** Some object row with the image's object id passes both restrictions. */
  ghost predicate DepictsSelectedObject(img: ImageRow, objects: seq<ObjectRow>, allowed: seq<string>, excluded: seq<string>) {
    exists o :: o in objects && o.objectId == img.objectId && ObjectSelected(o, allowed, excluded)
  }

  /**
   * The images whose object is selected: an order-preserving subsequence of
   * `images` that keeps exactly the rows depicting a selected object, and no
   * row more often than the input holds it.
   */
  function FilterByClassification(images: seq<ImageRow>, objects: seq<ObjectRow>, allowed: seq<string>, excluded: seq<string>): (r: seq<ImageRow>)
    ensures IsSubsequence(r, images)
    ensures forall img :: multiset(r)[img] <= multiset(images)[img]
    ensures forall img :: img in r <==> img in images && DepictsSelectedObject(img, objects, allowed, excluded)
  {
    var ids := SelectedObjectIds(objects, allowed, excluded);
    Mask(images, (img: ImageRow) => img.objectId in ids)
  }

  /** Adding exclusions can only remove images, and never reorders the rest. */
  lemma ExclusionsOnlyShrink(images: seq<ImageRow>, objects: seq<ObjectRow>, allowed: seq<string>, excluded: seq<string>, more: seq<string>)
    requires forall x :: x in excluded ==> x in more
    ensures IsSubsequence(FilterByClassification(images, objects, allowed, more),
                          FilterByClassification(images, objects, allowed, excluded))
  {
    var wide := SelectedObjectIds(objects, allowed, excluded);
    var narrow := SelectedObjectIds(objects, allowed, more);
    forall o | o in objects && ObjectSelected(o, allowed, more) ensures o.objectId in wide {
      assert ObjectSelected(o, allowed, excluded);
    }
    MaskMonotone(images, (img: ImageRow) => img.objectId in narrow, (img: ImageRow) => img.objectId in wide);
  }

  // ---------------------------------------------------------------------------
  // filter_by_artists
  // ---------------------------------------------------------------------------

  /**
   * The display-name test of the artist filter, a regular expression of the
   * names as alternatives: a present name containing one of them, ignoring case.
   */
  predicate NameMatches(name: Option<string>, names: seq<string>) {
    name.Some? && exists k | 0 <= k < |names| :: ContainsIgnoreCase(name.value, names[k])
  }

  /** The ids of the selected constituents. */
  function MatchingConstituentIds(constituents: seq<Constituent>, names: seq<string>): set<int> {
    set c | c in constituents && NameMatches(c.name, names) :: c.constituentId
  }

  /** `artist_objects['objectid'].unique()`: objects with an artist link to a selected constituent. */
  function ArtistObjectIds(constituents: seq<Constituent>, links: seq<Link>, names: seq<string>): set<int> {
    var ids := MatchingConstituentIds(constituents, names);
    set l | l in links && IsArtistLink(l) && l.constituentId in ids :: l.objectId
  }

  /** The object has an artist-role link to a constituent whose name matches. */
  ghost predicate AuthoredByMatch(objectId: int, constituents: seq<Constituent>, links: seq<Link>, names: seq<string>) {
    exists l, c :: l in links && c in constituents && l.objectId == objectId && IsArtistLink(l)
      && l.constituentId == c.constituentId && NameMatches(c.name, names)
  }

  /**
   * With no names the input is returned as it is; otherwise exactly the images
   * whose object is authored by a matching constituent, in their original order.
   */
  function FilterByArtists(images: seq<ImageRow>, constituents: seq<Constituent>, links: seq<Link>, names: seq<string>): (r: seq<ImageRow>)
    ensures |names| == 0 ==> r == images
    ensures IsSubsequence(r, images)
    ensures forall img :: multiset(r)[img] <= multiset(images)[img]
    ensures |names| > 0 ==>
      forall img :: img in r <==> img in images && AuthoredByMatch(img.objectId, constituents, links, names)
  {
    if |names| == 0 then
      assert IsSubsequence(images, images) by { SubsequenceReflexive(images); }
      images
    else
      var ids := ArtistObjectIds(constituents, links, names);
      Mask(images, (img: ImageRow) => img.objectId in ids)
  }

  lemma {:induction false} SubsequenceReflexive<T>(s: seq<T>)
    ensures IsSubsequence(s, s)
  {
    if s != [] {
      SubsequenceReflexive(s[1..]);
    }
  }

  // ---------------------------------------------------------------------------
  // The two left merges of download_dataset
  // ---------------------------------------------------------------------------

  /**
   * A column of a merged row: `Absent` when the merge that adds the column did
   * not run, so `row.get(col, default)` falls back to the default, and
   * `Present(cell)` otherwise, where `cell` may itself be missing.
   */
  datatype Column = Absent | Present(cell: Option<string>)

  /** An image row after the merge with objects.csv. */
  datatype WithObject = WithObject(image: ImageRow, title: Column, displayDate: Column, classification: Column, medium: Column)

  /** A download candidate: an image row with both merges applied. */
  datatype Candidate = Candidate(
    uuid: string,
    objectId: int,
    baseUrl: string,
    title: Column,
    displayDate: Column,
    classification: Column,
    medium: Column,
    artist: Column)

  /**
   * A merged row is faithful to objects.csv: it carries the cells of an object
   * with the image's id, or missing cells when no object has that id.
   */
  ghost predicate MergedFrom(w: WithObject, objects: seq<ObjectRow>) {
    || (exists o :: o in objects && o.objectId == w.image.objectId
          && w.title == Present(o.title) && w.displayDate == Present(o.displayDate)
          && w.classification == Present(o.classification) && w.medium == Present(o.medium))
    || ((forall o :: o in objects ==> o.objectId != w.image.objectId)
          && w.title == Present(None) && w.displayDate == Present(None)
          && w.classification == Present(None) && w.medium == Present(None))
  }

  /** The object rows with a given id, in table order. */
  function ObjectsWithId(objects: seq<ObjectRow>, id: int): seq<ObjectRow> {
    Mask(objects, (o: ObjectRow) => o.objectId == id)
  }

  /** The rows a left merge gives one image of object `id`: one per object row with that id, or one when there is none. */
  function RowsPerImage(objects: seq<ObjectRow>, id: int): nat {
    var k := |ObjectsWithId(objects, id)|;
    if k == 0 then 1 else k
  }

  /** The left-merge rows of one image: one per matching object, or one with missing cells. */
  function MergeOneObject(img: ImageRow, objects: seq<ObjectRow>): (r: seq<WithObject>)
    ensures |r| == RowsPerImage(objects, img.objectId)
    ensures forall w :: w in r ==> w.image == img && MergedFrom(w, objects)
  {
    var matching := ObjectsWithId(objects, img.objectId);
    if |matching| == 0 then
      [WithObject(img, Present(None), Present(None), Present(None), Present(None))]
    else
      var r := seq(|matching|, i requires 0 <= i < |matching| =>
        WithObject(img, Present(matching[i].title), Present(matching[i].displayDate),
                   Present(matching[i].classification), Present(matching[i].medium)));
      assert forall i :: 0 <= i < |r| ==> matching[i] in matching;
      r
  }

  /**
   * The left merge of an image with the object table on the object id:
   * at least one row per image, each row carrying an input image and the cells
   * of a matching object (or missing cells when there is none).
   */
  function MergeObjects(rows: seq<ImageRow>, objects: seq<ObjectRow>): (r: seq<WithObject>)
    ensures |r| >= |rows|
    ensures forall img :: img in rows ==> exists w :: w in r && w.image == img
    ensures forall w :: w in r ==> w.image in rows && MergedFrom(w, objects)
  {
    if rows == [] then []
    else
      assert rows == [rows[0]] + rows[1..];
      var head := MergeOneObject(rows[0], objects);
      assert head[0] in head;
      head + MergeObjects(rows[1..], objects)
  }

  /** The number of merged rows that carry a given image. */
  function RowsOfImage(r: seq<WithObject>, img: ImageRow): nat {
    if r == [] then 0 else (if r[0].image == img then 1 else 0) + RowsOfImage(r[1..], img)
  }

  lemma {:induction false} RowsOfImageConcat(a: seq<WithObject>, b: seq<WithObject>, img: ImageRow)
    ensures RowsOfImage(a + b, img) == RowsOfImage(a, img) + RowsOfImage(b, img)
  {
    if a == [] {
      assert a + b == b;
    } else {
      assert (a + b)[1..] == a[1..] + b;
      RowsOfImageConcat(a[1..], b, img);
    }
  }

  lemma {:induction false} RowsOfImageUniform(r: seq<WithObject>, img: ImageRow, other: ImageRow)
    requires forall w :: w in r ==> w.image == other
    ensures RowsOfImage(r, img) == if img == other then |r| else 0
  {
    if r != [] {
      assert forall w :: w in r[1..] ==> w in r;
      RowsOfImageUniform(r[1..], img, other);
    }
  }

  /** The arithmetic of one step of the count below. */
  lemma StepCount(total: nat, rest: nat, c: nat, m: nat, k: nat, occ: nat)
    requires c <= 1 && total == c * k + rest && rest == m * k && occ == c + m
    ensures total == occ * k
  {
  }

  /** The rows the first image contributes to the count, before those of the rest. */
  lemma RowsOfImageStep(rows: seq<ImageRow>, objects: seq<ObjectRow>, img: ImageRow)
    requires rows != []
    ensures RowsOfImage(MergeObjects(rows, objects), img)
      == (if rows[0] == img then RowsPerImage(objects, img.objectId) else 0)
         + RowsOfImage(MergeObjects(rows[1..], objects), img)
  {
    var head, tail := MergeOneObject(rows[0], objects), MergeObjects(rows[1..], objects);
    assert MergeObjects(rows, objects) == head + tail;
    RowsOfImageConcat(head, tail, img);
    RowsOfImageUniform(head, img, rows[0]);
  }

  /** The rows the merge owes an image: `RowsPerImage` for each of its occurrences in `rows`. */
  function OwedRows(rows: seq<ImageRow>, objects: seq<ObjectRow>, img: ImageRow): nat {
    if rows == [] then 0
    else (if rows[0] == img then RowsPerImage(objects, img.objectId) else 0) + OwedRows(rows[1..], objects, img)
  }

  lemma {:induction false} MergeObjectsPaysOwed(rows: seq<ImageRow>, objects: seq<ObjectRow>, img: ImageRow)
    ensures RowsOfImage(MergeObjects(rows, objects), img) == OwedRows(rows, objects, img)
  {
    if rows != [] {
      MergeObjectsPaysOwed(rows[1..], objects, img);
      RowsOfImageStep(rows, objects, img);
    }
  }

  lemma {:induction false} OwedRowsCount(rows: seq<ImageRow>, objects: seq<ObjectRow>, img: ImageRow)
    ensures OwedRows(rows, objects, img) == multiset(rows)[img] * RowsPerImage(objects, img.objectId)
  {
    if rows != [] {
      var c := if rows[0] == img then 1 else 0;
      var m, k := multiset(rows[1..])[img], RowsPerImage(objects, img.objectId);
      OwedRowsCount(rows[1..], objects, img);
      assert multiset(rows)[img] == c + m by {
        assert rows == [rows[0]] + rows[1..];
      }
      StepCount(OwedRows(rows, objects, img), OwedRows(rows[1..], objects, img), c, m, k, multiset(rows)[img]);
    }
  }

  /**
   * The left merge gives every occurrence of an image as many rows as objects.csv
   * has rows for its object, and one row when it has none.
   */
  lemma MergeObjectsRowsPerImage(rows: seq<ImageRow>, objects: seq<ObjectRow>, img: ImageRow)
    ensures RowsOfImage(MergeObjects(rows, objects), img) == multiset(rows)[img] * RowsPerImage(objects, img.objectId)
  {
    MergeObjectsPaysOwed(rows, objects, img);
    OwedRowsCount(rows, objects, img);
  }

  /** Without objects.csv the metadata columns are absent. */
  function WithoutObjects(rows: seq<ImageRow>): (r: seq<WithObject>)
    ensures |r| == |rows|
    ensures forall i :: 0 <= i < |rows| ==> r[i] == WithObject(rows[i], Absent, Absent, Absent, Absent)
  {
    seq(|rows|, i requires 0 <= i < |rows| => WithObject(rows[i], Absent, Absent, Absent, Absent))
  }

  /** Object ids are a key of objects.csv. */
  ghost predicate UniqueObjectIds(objects: seq<ObjectRow>) {
    forall i, j :: 0 <= i < j < |objects| ==> objects[i].objectId != objects[j].objectId
  }

  /** When object ids are unique the left merge keeps one row per image, in order. */
  lemma {:induction false} MergeObjectsOneToOne(rows: seq<ImageRow>, objects: seq<ObjectRow>)
    requires UniqueObjectIds(objects)
    ensures |MergeObjects(rows, objects)| == |rows|
    ensures forall i :: 0 <= i < |rows| ==> MergeObjects(rows, objects)[i].image == rows[i]
  {
    if rows != [] {
      MergeOneObjectSingle(rows[0], objects);
      MergeObjectsOneToOne(rows[1..], objects);
      var head, tail := MergeOneObject(rows[0], objects), MergeObjects(rows[1..], objects);
      var all: seq<WithObject> := head + tail;
      assert MergeObjects(rows, objects) == all;
      forall i | 0 <= i < |rows| ensures all[i].image == rows[i] {
        if i > 0 {
          assert all[i] == tail[i - 1];
        }
      }
    }
  }

  /** With unique object ids an image gets exactly one merged row. */
  lemma MergeOneObjectSingle(img: ImageRow, objects: seq<ObjectRow>)
    requires UniqueObjectIds(objects)
    ensures |MergeOneObject(img, objects)| == 1 && MergeOneObject(img, objects)[0].image == img
  {
    MaskUniqueKey(objects, img.objectId);
    assert MergeOneObject(img, objects)[0] in MergeOneObject(img, objects);
  }

  /** At most one object row has a given id when ids are unique. */
  lemma {:induction false} MaskUniqueKey(objects: seq<ObjectRow>, id: int)
    requires UniqueObjectIds(objects)
    ensures |ObjectsWithId(objects, id)| <= 1
  {
    if objects != [] {
      assert UniqueObjectIds(objects[1..]) by {
        forall i, j | 0 <= i < j < |objects[1..]| ensures objects[1..][i].objectId != objects[1..][j].objectId {
          assert objects[1..][i] == objects[i + 1] && objects[1..][j] == objects[j + 1];
        }
      }
      MaskUniqueKey(objects[1..], id);
    }
  }

  /** The artist-role links inner-merged with constituents: `(objectid, preferreddisplayname)` in link order. */
  function ArtistPairs(links: seq<Link>, constituents: seq<Constituent>): (r: seq<(int, Option<string>)>)
    ensures forall p :: p in r <==>
      (exists l, c :: l in links && IsArtistLink(l) && c in constituents
         && l.constituentId == c.constituentId && p == (l.objectId, c.name))
  {
    InnerJoin(Mask(links, IsArtistLink), constituents, SameConstituent, NamePair)
  }

  /** The merge key of links and constituents. */
  predicate SameConstituent(l: Link, c: Constituent) {
    l.constituentId == c.constituentId
  }

  /** The merged row of a link and its constituent, cut to the two columns used. */
  function NamePair(l: Link, c: Constituent): (int, Option<string>) {
    (l.objectId, c.name)
  }

  /** `', '.join` needs every name of the group: a missing one raises. */
  predicate AllNamed(pairs: seq<(int, Option<string>)>) {
    forall p :: p in pairs ==> p.1.Some?
  }

  /** The names of one object's group, in the order of the pairs. */
  function NamesOf(pairs: seq<(int, Option<string>)>, objectId: int): (r: seq<string>)
    requires AllNamed(pairs)
    ensures |r| == 0 <==> forall p :: p in pairs ==> p.0 != objectId
  {
    if pairs == [] then []
    else
      assert pairs == [pairs[0]] + pairs[1..];
      (if pairs[0].0 == objectId then [pairs[0].1.value] else []) + NamesOf(pairs[1..], objectId)
  }

  /** An object's group holds exactly the names paired with it, one per pair of the object. */
  lemma {:induction false} NamesOfGroup(pairs: seq<(int, Option<string>)>, objectId: int)
    requires AllNamed(pairs)
    ensures forall n :: n in NamesOf(pairs, objectId) <==> (objectId, Some(n)) in pairs
    ensures |NamesOf(pairs, objectId)| == |Mask(pairs, (p: (int, Option<string>)) => p.0 == objectId)|
  {
    if pairs != [] {
      assert pairs == [pairs[0]] + pairs[1..];
      assert AllNamed(pairs[1..]) by {
        assert forall p :: p in pairs[1..] ==> p in pairs;
      }
      NamesOfGroup(pairs[1..], objectId);
    }
  }

  /** The `artist` cell of `artists_grouped` merged onto an object: joined names, or missing. */
  function ArtistOf(pairs: seq<(int, Option<string>)>, objectId: int): Option<string>
    requires AllNamed(pairs)
  {
    var names := NamesOf(pairs, objectId);
    if |names| == 0 then None else Some(Join(names, ", "))
  }

  /** An object gets no artist exactly when it has no artist link to a known constituent. */
  lemma ArtistMissingIffNoArtistLink(links: seq<Link>, constituents: seq<Constituent>, objectId: int)
    requires AllNamed(ArtistPairs(links, constituents))
    ensures ArtistOf(ArtistPairs(links, constituents), objectId).None? <==>
      !exists l, c :: l in links && IsArtistLink(l) && c in constituents
        && l.constituentId == c.constituentId && l.objectId == objectId
  {
    var pairs := ArtistPairs(links, constituents);
    if exists l, c :: l in links && IsArtistLink(l) && c in constituents
        && l.constituentId == c.constituentId && l.objectId == objectId {
      var l, c :| l in links && IsArtistLink(l) && c in constituents
        && l.constituentId == c.constituentId && l.objectId == objectId;
      assert (l.objectId, c.name) in pairs;
    }
  }

  /** The display names of the constituents a link names, in constituents.csv order. */
  function LinkNames(l: Link, cs: seq<Constituent>): seq<Option<string>> {
    if cs == [] then []
    else (if cs[0].constituentId == l.constituentId then [cs[0].name] else []) + LinkNames(l, cs[1..])
  }

  /**
   * The reference for an object's artist names: for each of its artist-role
   * links in the order of objects_constituents.csv, the names of the
   * constituents that link names.
   */
  function LinkedNames(links: seq<Link>, cs: seq<Constituent>, objectId: int): seq<Option<string>> {
    if links == [] then []
    else
      (if IsArtistLink(links[0]) && links[0].objectId == objectId then LinkNames(links[0], cs) else [])
      + LinkedNames(links[1..], cs, objectId)
  }

  /** Present names as cells. */
  function Somes(names: seq<string>): (r: seq<Option<string>>)
    ensures |r| == |names|
  {
    if names == [] then [] else [Some(names[0])] + Somes(names[1..])
  }

  lemma {:induction false} SomesConcat(a: seq<string>, b: seq<string>)
    ensures Somes(a + b) == Somes(a) + Somes(b)
  {
    if a == [] {
      assert a + b == b;
    } else {
      assert (a + b)[1..] == a[1..] + b;
      SomesConcat(a[1..], b);
    }
  }

  lemma {:induction false} NamesOfConcat(a: seq<(int, Option<string>)>, b: seq<(int, Option<string>)>, objectId: int)
    requires AllNamed(a) && AllNamed(b)
    ensures AllNamed(a + b) && NamesOf(a + b, objectId) == NamesOf(a, objectId) + NamesOf(b, objectId)
  {
    assert AllNamed(a + b) by {
      assert forall p :: p in a + b ==> p in a || p in b;
    }
    if a == [] {
      assert a + b == b;
    } else {
      var ab := a + b;
      assert ab[0] == a[0] && ab[1..] == a[1..] + b;
      assert AllNamed(a[1..]) by {
        assert forall p :: p in a[1..] ==> p in a;
      }
      var h := if a[0].0 == objectId then [a[0].1.value] else [];
      assert NamesOf(ab, objectId) == h + NamesOf(a[1..] + b, objectId);
      assert NamesOf(a, objectId) == h + NamesOf(a[1..], objectId);
      NamesOfConcat(a[1..], b, objectId);
    }
  }


  /** The names one link contributes to an object's group. */
  lemma {:induction false} MatchNames(l: Link, cs: seq<Constituent>, objectId: int)
    requires AllNamed(Matches(l, cs, SameConstituent, NamePair))
    ensures Somes(NamesOf(Matches(l, cs, SameConstituent, NamePair), objectId))
      == if l.objectId == objectId then LinkNames(l, cs) else []
  {
    if cs != [] {
      var all := Matches(l, cs, SameConstituent, NamePair);
      var head: seq<(int, Option<string>)> := if SameConstituent(l, cs[0]) then [NamePair(l, cs[0])] else [];
      var rest := Matches(l, cs[1..], SameConstituent, NamePair);
      assert all == head + rest;
      assert AllNamed(head) && AllNamed(rest) by {
        assert forall p :: p in head ==> p in all;
        assert forall p :: p in rest ==> p in all;
      }
      MatchNames(l, cs[1..], objectId);
      NamesOfConcat(head, rest, objectId);
      SomesConcat(NamesOf(head, objectId), NamesOf(rest, objectId));
      if head != [] {
        assert head[1..] == [];
      }
    }
  }

  /** The pairs of the first link come before those of the remaining links. */
  lemma ArtistPairsCons(links: seq<Link>, cs: seq<Constituent>)
    requires links != []
    ensures ArtistPairs(links, cs)
      == (if IsArtistLink(links[0]) then Matches(links[0], cs, SameConstituent, NamePair) else [])
         + ArtistPairs(links[1..], cs)
  {
    var l := links[0];
    var first: seq<Link> := if IsArtistLink(l) then [l] else [];
    assert Mask(links, IsArtistLink) == first + Mask(links[1..], IsArtistLink);
    InnerJoinConcat(first, Mask(links[1..], IsArtistLink), cs, SameConstituent, NamePair);
    if IsArtistLink(l) {
      assert InnerJoin(first, cs, SameConstituent, NamePair)
        == Matches(l, cs, SameConstituent, NamePair) + InnerJoin([], cs, SameConstituent, NamePair);
    }
  }

  /** The names of an object's group are the reference names, link by link. */
  lemma {:induction false} GroupNamesInLinkOrder(links: seq<Link>, cs: seq<Constituent>, objectId: int)
    requires AllNamed(ArtistPairs(links, cs))
    ensures Somes(NamesOf(ArtistPairs(links, cs), objectId)) == LinkedNames(links, cs, objectId)
  {
    if links != [] {
      var l := links[0];
      var all := ArtistPairs(links, cs);
      var head := if IsArtistLink(l) then Matches(l, cs, SameConstituent, NamePair) else [];
      var rest := ArtistPairs(links[1..], cs);
      ArtistPairsCons(links, cs);
      assert all == head + rest;
      assert AllNamed(head) && AllNamed(rest) by {
        assert forall p :: p in head ==> p in all;
        assert forall p :: p in rest ==> p in all;
      }
      GroupNamesInLinkOrder(links[1..], cs, objectId);
      NamesOfConcat(head, rest, objectId);
      SomesConcat(NamesOf(head, objectId), NamesOf(rest, objectId));
      if IsArtistLink(l) {
        MatchNames(l, cs, objectId);
      }
    }
  }

  /**
   * An object's artist cell is missing when it has no artist-role link to a
   * constituent, and otherwise holds the names its artist links name, in link
   * order, joined with ", ".
   */
  lemma ArtistInLinkOrder(links: seq<Link>, cs: seq<Constituent>, objectId: int)
    requires AllNamed(ArtistPairs(links, cs))
    ensures ArtistOf(ArtistPairs(links, cs), objectId).None? <==> LinkedNames(links, cs, objectId) == []
    ensures ArtistOf(ArtistPairs(links, cs), objectId).Some? ==>
      exists names :: Somes(names) == LinkedNames(links, cs, objectId)
        && ArtistOf(ArtistPairs(links, cs), objectId).value == Join(names, ", ")
  {
    GroupNamesInLinkOrder(links, cs, objectId);
    var names := NamesOf(ArtistPairs(links, cs), objectId);
    assert Somes(names) == LinkedNames(links, cs, objectId);
  }

  /** The merged pairs of a two-author object keep the link order, not the constituent order. */
  lemma TwoAuthorPairs(links: seq<Link>, cs: seq<Constituent>)
    requires links == [Link(7, 1, "artist"), Link(7, 2, "artist")]
    requires cs == [Constituent(2, Some("B"), None, None, Some(1)), Constituent(1, Some("A"), None, None, Some(1))]
    ensures ArtistPairs(links, cs) == [(7, Some("A")), (7, Some("B"))]
  {
    var on, pair := SameConstituent, NamePair;
    assert Mask(links, IsArtistLink) == links;
    assert Matches(links[0], cs[1..], on, pair) == [(7, Some("A"))];
    assert Matches(links[0], cs, on, pair) == [(7, Some("A"))];
    assert Matches(links[1], cs[1..], on, pair) == [];
    assert Matches(links[1], cs, on, pair) == [(7, Some("B"))];
    assert InnerJoin(links[1..], cs, on, pair) == [(7, Some("B"))];
  }

  lemma TwoNames(pairs: seq<(int, Option<string>)>)
    requires pairs == [(7, Some("A")), (7, Some("B"))]
    ensures AllNamed(pairs) && NamesOf(pairs, 7) == ["A", "B"]
  {
    assert NamesOf(pairs[1..], 7) == ["B"];
  }

  lemma TwoNamesJoined()
    ensures Join(["A", "B"], ", ") == "A, B"
  {
    assert Join(["A", "B"], ", ") == "A" + ", " + Join(["B"], ", ");
    assert "A" + ", " + "B" == "A, B";
  }

  /** A two-author object gets its two artist names joined with ", ", in link order. */
  lemma TwoAuthorsJoined(links: seq<Link>, cs: seq<Constituent>)
    requires links == [Link(7, 1, "artist"), Link(7, 2, "artist")]
    requires cs == [Constituent(2, Some("B"), None, None, Some(1)), Constituent(1, Some("A"), None, None, Some(1))]
    ensures AllNamed(ArtistPairs(links, cs)) && ArtistOf(ArtistPairs(links, cs), 7) == Some("A, B")
  {
    TwoAuthorPairs(links, cs);
    TwoNames(ArtistPairs(links, cs));
    TwoNamesJoined();
  }

  // ---------------------------------------------------------------------------
  // download_dataset, lines 184-238: from the tables to the candidate list
  // ---------------------------------------------------------------------------

  /** The tables; a `None` table is one whose path was not given. */
  datatype Sources = Sources(
    images: seq<ImageRow>,
    objects: Option<seq<ObjectRow>>,
    constituents: Option<seq<Constituent>>,
    links: Option<seq<Link>>)

  /** The filter options; `None` and an empty list are the same to every test of the source. */
  datatype Config = Config(artistNames: seq<string>, allowedClassifications: seq<string>, excludedSubclassifications: seq<string>)

  /** How candidate preparation ends. */
  datatype Prepared =
    | NoClassificationMatches   // the classification filter left no image
    | NoArtistMatches           // the artist filter left no image
    | ArtistJoinFailed          // an artist-role link names a constituent without a name
    | Ready(candidates: seq<Candidate>)

  predicate HasUrl(img: ImageRow) {
    img.iiifUrl.Some?
  }

  /** The classification filter runs when the objects table is given and either list is not empty. */
  predicate ClassificationRequested(src: Sources, cfg: Config) {
    src.objects.Some? && (|cfg.allowedClassifications| > 0 || |cfg.excludedSubclassifications| > 0)
  }

  /** The artist filter runs when names are given and both artist tables are given. */
  predicate ArtistFilterRequested(src: Sources, cfg: Config) {
    |cfg.artistNames| > 0 && src.constituents.Some? && src.links.Some?
  }

  /** Both artist tables are given. */
  predicate ArtistsAvailable(src: Sources) {
    src.constituents.Some? && src.links.Some?
  }

  /** The image rows that have a base URL. */
  function WithUrls(images: seq<ImageRow>): (r: seq<ImageRow>)
    ensures forall img :: img in r <==> img in images && img.iiifUrl.Some?
  {
    Mask(images, HasUrl)
  }

  /** The rows after the classification step. */
  function AfterClassification(src: Sources, cfg: Config): seq<ImageRow> {
    var data := WithUrls(src.images);
    if ClassificationRequested(src, cfg) then
      FilterByClassification(data, src.objects.value, cfg.allowedClassifications, cfg.excludedSubclassifications)
    else data
  }

  /** The rows after the artist step. */
  function AfterArtists(src: Sources, cfg: Config): seq<ImageRow> {
    var data := AfterClassification(src, cfg);
    if ArtistFilterRequested(src, cfg) then
      FilterByArtists(data, src.constituents.value, src.links.value, cfg.artistNames)
    else data
  }

  /** The rows after the first merge (with objects.csv when it is given). */
  function AfterObjectMerge(src: Sources, cfg: Config): seq<WithObject> {
    var data := AfterArtists(src, cfg);
    if src.objects.Some? then MergeObjects(data, src.objects.value) else WithoutObjects(data)
  }

  function ToCandidate(w: WithObject, artist: Column): Candidate
    requires w.image.iiifUrl.Some?
  {
    Candidate(w.image.uuid, w.image.objectId, w.image.iiifUrl.value,
      w.title, w.displayDate, w.classification, w.medium, artist)
  }

  /** The second merge: the `artist` column, absent when the artist tables are not given. */
  function AttachArtists(rows: seq<WithObject>, src: Sources): (r: seq<Candidate>)
    requires forall w :: w in rows ==> w.image.iiifUrl.Some?
    requires ArtistsAvailable(src) ==> AllNamed(ArtistPairs(src.links.value, src.constituents.value))
    ensures |r| == |rows|
    ensures forall i :: 0 <= i < |rows| ==> r[i] == ToCandidate(rows[i], r[i].artist)
  {
    seq(|rows|, i requires 0 <= i < |rows| =>
      ToCandidate(rows[i],
        if ArtistsAvailable(src)
        then Present(ArtistOf(ArtistPairs(src.links.value, src.constituents.value), rows[i].image.objectId))
        else Absent))
  }

  /** The candidate list of `download_dataset`, or the reason it stopped early. */
  function Prepare(src: Sources, cfg: Config): Prepared {
    if ClassificationRequested(src, cfg) && |AfterClassification(src, cfg)| == 0 then NoClassificationMatches
    else if ArtistFilterRequested(src, cfg) && |AfterArtists(src, cfg)| == 0 then NoArtistMatches
    else if ArtistsAvailable(src) && !AllNamed(ArtistPairs(src.links.value, src.constituents.value)) then ArtistJoinFailed
    else
      var rows := AfterObjectMerge(src, cfg);
      AfterArtistsHaveUrls(src, cfg);
      Ready(AttachArtists(rows, src))
  }

  lemma AfterClassificationHaveUrls(src: Sources, cfg: Config)
    ensures forall img :: img in AfterClassification(src, cfg) ==> img in src.images && img.iiifUrl.Some?
  {
    var data := WithUrls(src.images);
    if ClassificationRequested(src, cfg) {
      var r := FilterByClassification(data, src.objects.value, cfg.allowedClassifications, cfg.excludedSubclassifications);
      assert forall img :: img in r ==> img in data;
    }
  }

  /** Every row that reaches the merges still has an image URL. */
  lemma AfterArtistsHaveUrls(src: Sources, cfg: Config)
    ensures forall img :: img in AfterArtists(src, cfg) ==> img in src.images && img.iiifUrl.Some?
    ensures forall w :: w in AfterObjectMerge(src, cfg) ==> w.image in src.images && w.image.iiifUrl.Some?
  {
    AfterClassificationHaveUrls(src, cfg);
    var data := AfterClassification(src, cfg);
    if ArtistFilterRequested(src, cfg) {
      var r := FilterByArtists(data, src.constituents.value, src.links.value, cfg.artistNames);
      assert forall img :: img in r ==> img in data;
    }
  }

  /** The candidate carries an image row with a URL that passed each filter that ran. */
  ghost predicate FromFilteredImage(c: Candidate, src: Sources, cfg: Config) {
    exists img :: img in src.images && img.uuid == c.uuid && img.objectId == c.objectId
      && img.iiifUrl == Some(c.baseUrl)
      && (ClassificationRequested(src, cfg) ==>
            DepictsSelectedObject(img, src.objects.value, cfg.allowedClassifications, cfg.excludedSubclassifications))
      && (ArtistFilterRequested(src, cfg) ==>
            AuthoredByMatch(img.objectId, src.constituents.value, src.links.value, cfg.artistNames))
  }

  /**
   * Every candidate comes from an image row with a URL that passed each filter
   * that ran, and its artist column is the one the second merge attaches.
   */
  lemma CandidatesSound(src: Sources, cfg: Config)
    requires Prepare(src, cfg).Ready?
    ensures forall c :: c in Prepare(src, cfg).candidates ==> FromFilteredImage(c, src, cfg)
    ensures forall c :: c in Prepare(src, cfg).candidates ==>
      c.artist == if ArtistsAvailable(src)
                  then Present(ArtistOf(ArtistPairs(src.links.value, src.constituents.value), c.objectId))
                  else Absent
  {
    var rows := AfterObjectMerge(src, cfg);
    var cands := Prepare(src, cfg).candidates;
    AfterArtistsHaveUrls(src, cfg);
    assert cands == AttachArtists(rows, src);
    forall c | c in cands
      ensures FromFilteredImage(c, src, cfg)
    {
      var i :| 0 <= i < |cands| && cands[i] == c;
      var img := rows[i].image;
      assert img in AfterArtists(src, cfg) by {
        assert rows[i] in rows;
      }
      assert img in AfterClassification(src, cfg);
    }
  }

  /**
   * When object ids are a key of objects.csv (or it is not given), the merges
   * add no rows: one candidate per filtered image, in the filtered order.
   */
  lemma CandidatesOnePerImage(src: Sources, cfg: Config)
    requires Prepare(src, cfg).Ready?
    requires src.objects.Some? ==> UniqueObjectIds(src.objects.value)
    ensures |Prepare(src, cfg).candidates| == |AfterArtists(src, cfg)|
    ensures forall i :: 0 <= i < |AfterArtists(src, cfg)| ==>
      Prepare(src, cfg).candidates[i].uuid == AfterArtists(src, cfg)[i].uuid
  {
    if src.objects.Some? {
      MergeObjectsOneToOne(AfterArtists(src, cfg), src.objects.value);
    }
  }
}
