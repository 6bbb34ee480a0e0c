/**
 * project/scripts/analyze_dataset.py after its directory listing: the uuids of
 * the downloaded files, the chain of inner merges that yields one row per
 * (artist link, image) pair, the per-author counts and lists, the per-author
 * file names, and the rows of dataset_info.csv.
 */
module Analysis {
  import opened Wrappers
  import opened Seqs
  import opened Text
  import opened Tables
  import opened Order
  import Downloader

  // ---------------------------------------------------------------------------
  // Downloaded uuids and the tables restricted to them
  // ---------------------------------------------------------------------------

  predicate IsJpgName(f: string) {
    EndsWith(f, ".jpg")
  }

  /** The names in a directory listing that end in `.jpg`, in listing order. */
  function DownloadedFiles(listing: seq<string>): (files: seq<string>)
    ensures IsSubsequence(files, listing)
    ensures forall f :: f in files <==> f in listing && EndsWith(f, ".jpg")
  {
    Mask(listing, IsJpgName)
  }

  /** One uuid per downloaded file: its name with every occurrence of `.jpg` removed. */
  function DownloadedUuids(listing: seq<string>): (uuids: seq<string>)
    ensures |uuids| == |DownloadedFiles(listing)|
    ensures forall i :: 0 <= i < |uuids| ==> uuids[i] == ReplaceAll(DownloadedFiles(listing)[i], ".jpg", "")
  {
    var files := DownloadedFiles(listing);
    seq(|files|, i requires 0 <= i < |files| => ReplaceAll(files[i], ".jpg", ""))
  }

  /**
   * A directory holding exactly the files the downloader names gives back
   * exactly their uuids, in order, as long as no uuid contains a '.'.
   */
  lemma UuidsOfDownloadedFiles(uuids: seq<string>)
    requires forall u :: u in uuids ==> '.' !in u
    ensures DownloadedUuids(seq(|uuids|, i requires 0 <= i < |uuids| => Downloader.FileName(uuids[i]))) == uuids
  {
    var listing := seq(|uuids|, i requires 0 <= i < |uuids| => Downloader.FileName(uuids[i]));
    MaskAll(listing, IsJpgName);
    forall i | 0 <= i < |uuids| ensures ReplaceAll(listing[i], ".jpg", "") == uuids[i] {
      ReplaceAllTrailing(uuids[i], ".jpg", "");
      assert uuids[i] + "" == uuids[i];
    }
  }

  /** The image rows whose uuid is among the downloaded ones. */
  function DownloadedImages(images: seq<ImageRow>, uuids: seq<string>): (r: seq<ImageRow>)
    ensures IsSubsequence(r, images)
    ensures forall img :: img in r <==> img in images && img.uuid in uuids
    ensures forall img :: multiset(r)[img] == if img.uuid in uuids then multiset(images)[img] else 0
  {
    Mask(images, (img: ImageRow) => img.uuid in uuids)
  }

  /** The objects the downloaded images depict, as the set later membership tests use. */
  function ObjectIds(dimages: seq<ImageRow>): (ids: set<int>)
    ensures forall id :: id in ids <==> exists img :: img in dimages && img.objectId == id
  {
    set img | img in dimages :: img.objectId
  }

  /** The object rows of the depicted objects. */
  function DownloadedObjects(objects: seq<ObjectRow>, ids: set<int>): (r: seq<ObjectRow>)
    ensures forall o :: o in r <==> o in objects && o.objectId in ids
  {
    Mask(objects, (o: ObjectRow) => o.objectId in ids)
  }

  /** The artist-role links of the downloaded objects. */
  function AuthorRelations(links: seq<Link>, ids: set<int>): (r: seq<Link>)
    ensures forall l :: l in r <==> l in links && l.objectId in ids && IsArtistLink(l)
  {
    Mask(links, (l: Link) => l.objectId in ids && IsArtistLink(l))
  }

  // ---------------------------------------------------------------------------
  // The merge chain
  // ---------------------------------------------------------------------------

  datatype AuthorInfo = AuthorInfo(objectId: int, constituentId: int, name: Option<string>)

  datatype WorkInfo = WorkInfo(objectId: int, constituentId: int, name: Option<string>,
                               title: Option<string>, displayDate: Option<string>)

  /** A row of `full_info`. */
  datatype FullRow = FullRow(objectId: int, constituentId: int, name: Option<string>,
                             title: Option<string>, displayDate: Option<string>, uuid: string)

  /** First merge: each artist link of a downloaded object with the display name of its constituent. */
  function AuthorsInfo(relations: seq<Link>, cs: seq<Constituent>): (r: seq<AuthorInfo>)
    ensures forall a :: a in r <==> exists l, c ::
      (l in relations && c in cs && l.constituentId == c.constituentId && a == AuthorInfo(l.objectId, l.constituentId, c.name))
  {
    InnerJoin(relations, cs,
      (l: Link, c: Constituent) => l.constituentId == c.constituentId,
      (l: Link, c: Constituent) => AuthorInfo(l.objectId, l.constituentId, c.name))
  }

  /** Second merge: each of those rows with the title and date of its object. */
  function WithObjects(info: seq<AuthorInfo>, dobjects: seq<ObjectRow>): (r: seq<WorkInfo>)
    ensures forall w :: w in r <==> exists a, o ::
      (a in info && o in dobjects && a.objectId == o.objectId
       && w == WorkInfo(a.objectId, a.constituentId, a.name, o.title, o.displayDate))
  {
    InnerJoin(info, dobjects,
      (a: AuthorInfo, o: ObjectRow) => a.objectId == o.objectId,
      (a: AuthorInfo, o: ObjectRow) => WorkInfo(a.objectId, a.constituentId, a.name, o.title, o.displayDate))
  }

  /** Third merge: each of those rows with the uuid of every downloaded image of its object. */
  function WithImages(works: seq<WorkInfo>, dimages: seq<ImageRow>): (r: seq<FullRow>)
    ensures forall row :: row in r <==> exists w, img ::
      (w in works && img in dimages && w.objectId == img.objectId
       && row == FullRow(w.objectId, w.constituentId, w.name, w.title, w.displayDate, img.uuid))
  {
    InnerJoin(works, dimages,
      (w: WorkInfo, img: ImageRow) => w.objectId == img.objectId,
      (w: WorkInfo, img: ImageRow) => FullRow(w.objectId, w.constituentId, w.name, w.title, w.displayDate, img.uuid))
  }

  /** `full_info`, from the four tables and the downloaded uuids. */
  function FullInfo(images: seq<ImageRow>, objects: seq<ObjectRow>, cs: seq<Constituent>, links: seq<Link>,
                    uuids: seq<string>): seq<FullRow>
  {
    var dimages := DownloadedImages(images, uuids);
    var ids := ObjectIds(dimages);
    WithImages(WithObjects(AuthorsInfo(AuthorRelations(links, ids), cs), DownloadedObjects(objects, ids)), dimages)
  }

  /**
   * `row` combines an artist link, the constituent it names, the object it is
   * about and a downloaded image of that object.
   */
  ghost predicate JoinedFrom(row: FullRow, images: seq<ImageRow>, objects: seq<ObjectRow>, cs: seq<Constituent>,
                             links: seq<Link>, uuids: seq<string>)
  {
    exists l, c, o, img ::
      && l in links && c in cs && o in objects && img in images
      && IsArtistLink(l) && img.uuid in uuids
      && l.constituentId == c.constituentId && l.objectId == o.objectId && o.objectId == img.objectId
      && row == FullRow(l.objectId, l.constituentId, c.name, o.title, o.displayDate, img.uuid)
  }

  /** The stages of the merge, read backwards: where a `full_info` row's parts come from. */
  lemma ImageStageWitness(row: FullRow, works: seq<WorkInfo>, dimages: seq<ImageRow>) returns (w: WorkInfo, img: ImageRow)
    requires row in WithImages(works, dimages)
    ensures w in works && img in dimages && w.objectId == img.objectId
    ensures row == FullRow(w.objectId, w.constituentId, w.name, w.title, w.displayDate, img.uuid)
  {
    w, img :| w in works && img in dimages && w.objectId == img.objectId
      && row == FullRow(w.objectId, w.constituentId, w.name, w.title, w.displayDate, img.uuid);
  }

  lemma ObjectStageWitness(w: WorkInfo, info: seq<AuthorInfo>, dobjects: seq<ObjectRow>) returns (a: AuthorInfo, o: ObjectRow)
    requires w in WithObjects(info, dobjects)
    ensures a in info && o in dobjects && a.objectId == o.objectId
    ensures w == WorkInfo(a.objectId, a.constituentId, a.name, o.title, o.displayDate)
  {
    a, o :| a in info && o in dobjects && a.objectId == o.objectId
      && w == WorkInfo(a.objectId, a.constituentId, a.name, o.title, o.displayDate);
  }

  lemma AuthorStageWitness(a: AuthorInfo, relations: seq<Link>, cs: seq<Constituent>) returns (l: Link, c: Constituent)
    requires a in AuthorsInfo(relations, cs)
    ensures l in relations && c in cs && l.constituentId == c.constituentId
    ensures a == AuthorInfo(l.objectId, l.constituentId, c.name)
  {
    l, c :| l in relations && c in cs && l.constituentId == c.constituentId
      && a == AuthorInfo(l.objectId, l.constituentId, c.name);
  }

  lemma FullRowSound(row: FullRow, images: seq<ImageRow>, objects: seq<ObjectRow>, cs: seq<Constituent>,
                     links: seq<Link>, uuids: seq<string>)
    requires row in FullInfo(images, objects, cs, links, uuids)
    ensures JoinedFrom(row, images, objects, cs, links, uuids)
  {
    var dimages := DownloadedImages(images, uuids);
    var ids := ObjectIds(dimages);
    var dobjects := DownloadedObjects(objects, ids);
    var relations := AuthorRelations(links, ids);
    var info := AuthorsInfo(relations, cs);
    var works := WithObjects(info, dobjects);
    var w, img := ImageStageWitness(row, works, dimages);
    var a, o := ObjectStageWitness(w, info, dobjects);
    var l, c := AuthorStageWitness(a, relations, cs);
    assert l in links && o in objects && img in images && img.uuid in uuids && IsArtistLink(l);
  }

  /** The stages of the merge, read forwards: matching parts make a row at each stage. */
  lemma AuthorStageMember(l: Link, c: Constituent, relations: seq<Link>, cs: seq<Constituent>)
    requires l in relations && c in cs && l.constituentId == c.constituentId
    ensures AuthorInfo(l.objectId, l.constituentId, c.name) in AuthorsInfo(relations, cs)
  {
  }

  lemma ObjectStageMember(a: AuthorInfo, o: ObjectRow, info: seq<AuthorInfo>, dobjects: seq<ObjectRow>)
    requires a in info && o in dobjects && a.objectId == o.objectId
    ensures WorkInfo(a.objectId, a.constituentId, a.name, o.title, o.displayDate) in WithObjects(info, dobjects)
  {
  }

  lemma ImageStageMember(w: WorkInfo, img: ImageRow, works: seq<WorkInfo>, dimages: seq<ImageRow>)
    requires w in works && img in dimages && w.objectId == img.objectId
    ensures FullRow(w.objectId, w.constituentId, w.name, w.title, w.displayDate, img.uuid) in WithImages(works, dimages)
  {
  }

  lemma FullRowComplete(row: FullRow, images: seq<ImageRow>, objects: seq<ObjectRow>, cs: seq<Constituent>,
                        links: seq<Link>, uuids: seq<string>)
    requires JoinedFrom(row, images, objects, cs, links, uuids)
    ensures row in FullInfo(images, objects, cs, links, uuids)
  {
    var dimages := DownloadedImages(images, uuids);
    var ids := ObjectIds(dimages);
    var dobjects := DownloadedObjects(objects, ids);
    var relations := AuthorRelations(links, ids);
    var l, c, o, img :|
      && l in links && c in cs && o in objects && img in images
      && IsArtistLink(l) && img.uuid in uuids
      && l.constituentId == c.constituentId && l.objectId == o.objectId && o.objectId == img.objectId
      && row == FullRow(l.objectId, l.constituentId, c.name, o.title, o.displayDate, img.uuid);
    assert img in dimages;
    assert l.objectId in ids;
    assert l in relations && o in dobjects;
    var a := AuthorInfo(l.objectId, l.constituentId, c.name);
    AuthorStageMember(l, c, relations, cs);
    var info := AuthorsInfo(relations, cs);
    var w := WorkInfo(a.objectId, a.constituentId, a.name, o.title, o.displayDate);
    ObjectStageMember(a, o, info, dobjects);
    ImageStageMember(w, img, WithObjects(info, dobjects), dimages);
  }

  /**
   * `full_info` holds exactly the combinations of an artist link, its
   * constituent, its object and a downloaded image of that object; in
   * particular every uuid in it is a downloaded one.
   */
  lemma FullInfoExactly(images: seq<ImageRow>, objects: seq<ObjectRow>, cs: seq<Constituent>, links: seq<Link>,
                        uuids: seq<string>)
    ensures forall row :: row in FullInfo(images, objects, cs, links, uuids) <==>
      JoinedFrom(row, images, objects, cs, links, uuids)
    ensures forall row :: row in FullInfo(images, objects, cs, links, uuids) ==> row.uuid in uuids
  {
    forall row | row in FullInfo(images, objects, cs, links, uuids)
      ensures JoinedFrom(row, images, objects, cs, links, uuids)
    {
      FullRowSound(row, images, objects, cs, links, uuids);
    }
    forall row | JoinedFrom(row, images, objects, cs, links, uuids)
      ensures row in FullInfo(images, objects, cs, links, uuids)
    {
      FullRowComplete(row, images, objects, cs, links, uuids);
    }
  }

  // ---------------------------------------------------------------------------
  // by_author: groupby('preferreddisplayname').size()
  // ---------------------------------------------------------------------------

  /** The number of `full_info` rows with a given display name. */
  function CountName(rows: seq<FullRow>, name: string): nat {
    if rows == [] then 0
    else CountName(rows[..|rows| - 1], name) + (if rows[|rows| - 1].name == Some(name) then 1 else 0)
  }

  /** The number of `full_info` rows with a display name at all. */
  function CountNamed(rows: seq<FullRow>): nat {
    if rows == [] then 0
    else CountNamed(rows[..|rows| - 1]) + (if rows[|rows| - 1].name.Some? then 1 else 0)
  }

  /** A row of `by_author`. */
  datatype AuthorCount = AuthorCount(name: string, count: nat)

  /** Group keys come out sorted, each once. */
  predicate StrictlySorted(t: seq<AuthorCount>) {
    forall i, j :: 0 <= i < j < |t| ==> LexLess(t[i].name, t[j].name)
  }

  /** Every key of `t` comes after `k`. */
  predicate Above(k: string, t: seq<AuthorCount>) {
    forall i :: 0 <= i < |t| ==> LexLess(k, t[i].name)
  }

  predicate Positive(t: seq<AuthorCount>) {
    forall i :: 0 <= i < |t| ==> t[i].count >= 1
  }

  /** One more row for `name` in a sorted tally. */
  function TallyAdd(name: string, t: seq<AuthorCount>): seq<AuthorCount> {
    if t == [] then [AuthorCount(name, 1)]
    else if t[0].name == name then [AuthorCount(name, t[0].count + 1)] + t[1..]
    else if LexLess(name, t[0].name) then [AuthorCount(name, 1)] + t
    else [t[0]] + TallyAdd(name, t[1..])
  }

  /** The count a tally records for a name, 0 when it has none. */
  function CountOf(t: seq<AuthorCount>, name: string): nat {
    if t == [] then 0 else if t[0].name == name then t[0].count else CountOf(t[1..], name)
  }

  function Total(t: seq<AuthorCount>): nat {
    if t == [] then 0 else t[0].count + Total(t[1..])
  }

  lemma {:induction false} TallyAddAbove(k: string, name: string, t: seq<AuthorCount>)
    requires Above(k, t) && LexLess(k, name)
    ensures Above(k, TallyAdd(name, t))
  {
    if t != [] && t[0].name != name && !LexLess(name, t[0].name) {
      TallyAddAbove(k, name, t[1..]);
    }
  }

  lemma {:induction false} TallyAddSorted(name: string, t: seq<AuthorCount>)
    requires StrictlySorted(t)
    ensures StrictlySorted(TallyAdd(name, t))
  {
    if t != [] && t[0].name != name {
      if LexLess(name, t[0].name) {
        forall j | 0 <= j < |t| ensures LexLess(name, t[j].name) {
          if j > 0 {
            LexTransitive(name, t[0].name, t[j].name);
          }
        }
      } else {
        LexTotal(name, t[0].name);
        TallyAddSorted(name, t[1..]);
        TallyAddAbove(t[0].name, name, t[1..]);
      }
    }
  }

  lemma {:induction false} TallyAddPositive(name: string, t: seq<AuthorCount>)
    requires Positive(t)
    ensures Positive(TallyAdd(name, t))
  {
    if t != [] && t[0].name != name && !LexLess(name, t[0].name) {
      TallyAddPositive(name, t[1..]);
    }
  }

  lemma {:induction false} CountOfAbove(k: string, t: seq<AuthorCount>)
    requires Above(k, t)
    ensures CountOf(t, k) == 0
  {
    if t != [] {
      LexIrreflexive(k);
      CountOfAbove(k, t[1..]);
    }
  }

  /** Adding a row for `name` raises its count by one and leaves every other count alone. */
  lemma {:induction false} TallyAddCount(name: string, t: seq<AuthorCount>, k: string)
    requires StrictlySorted(t)
    ensures CountOf(TallyAdd(name, t), k) == CountOf(t, k) + (if k == name then 1 else 0)
  {
    if t != [] && t[0].name != name {
      if LexLess(name, t[0].name) {
        forall j | 0 <= j < |t| ensures LexLess(name, t[j].name) {
          if j > 0 {
            LexTransitive(name, t[0].name, t[j].name);
          }
        }
        CountOfAbove(name, t);
      } else if k != t[0].name {
        TallyAddCount(name, t[1..], k);
      }
    }
  }

  lemma {:induction false} TallyAddTotal(name: string, t: seq<AuthorCount>)
    ensures Total(TallyAdd(name, t)) == Total(t) + 1
  {
    if t != [] && t[0].name != name && !LexLess(name, t[0].name) {
      TallyAddTotal(name, t[1..]);
    }
  }

  /** In a sorted tally each entry's count is the count recorded for its name. */
  lemma {:induction false} CountOfEntry(t: seq<AuthorCount>, i: nat)
    requires StrictlySorted(t) && i < |t|
    ensures CountOf(t, t[i].name) == t[i].count
  {
    if i > 0 {
      LexIrreflexive(t[i].name);
      assert LexLess(t[0].name, t[i].name);
      CountOfEntry(t[1..], i - 1);
    }
  }

  /** A name with a positive recorded count is a key of the tally. */
  lemma {:induction false} CountOfPositive(t: seq<AuthorCount>, k: string)
    requires CountOf(t, k) > 0
    ensures exists i :: 0 <= i < |t| && t[i].name == k
  {
    if t[0].name != k {
      CountOfPositive(t[1..], k);
      var i :| 0 <= i < |t[1..]| && t[1..][i].name == k;
      assert t[i + 1].name == k;
    }
  }

  /** `by_author`: the display names in sorted order, each with its number of rows; rows without a name are dropped. */
  function ByAuthor(rows: seq<FullRow>): (t: seq<AuthorCount>)
    ensures StrictlySorted(t) && Positive(t)
  {
    if rows == [] then []
    else
      var t := ByAuthor(rows[..|rows| - 1]);
      match rows[|rows| - 1].name
      case None => t
      case Some(name) =>
        TallyAddSorted(name, t);
        TallyAddPositive(name, t);
        TallyAdd(name, t)
  }

  lemma {:induction false} ByAuthorCountOf(rows: seq<FullRow>, k: string)
    ensures CountOf(ByAuthor(rows), k) == CountName(rows, k)
  {
    if rows != [] {
      ByAuthorCountOf(rows[..|rows| - 1], k);
      if rows[|rows| - 1].name.Some? {
        TallyAddCount(rows[|rows| - 1].name.value, ByAuthor(rows[..|rows| - 1]), k);
      }
    }
  }

  /**
   * Each author's count is the number of `full_info` rows with that name, and
   * every name that occurs in `full_info` has an entry.
   */
  lemma ByAuthorCounts(rows: seq<FullRow>)
    ensures forall i :: 0 <= i < |ByAuthor(rows)| ==> ByAuthor(rows)[i].count == CountName(rows, ByAuthor(rows)[i].name)
    ensures forall k :: CountName(rows, k) > 0 ==> exists i :: 0 <= i < |ByAuthor(rows)| && ByAuthor(rows)[i].name == k
  {
    var t := ByAuthor(rows);
    forall i | 0 <= i < |t| ensures t[i].count == CountName(rows, t[i].name) {
      CountOfEntry(t, i);
      ByAuthorCountOf(rows, t[i].name);
    }
    forall k | CountName(rows, k) > 0 ensures exists i :: 0 <= i < |t| && t[i].name == k {
      ByAuthorCountOf(rows, k);
      CountOfPositive(t, k);
    }
  }

  /** The counts add up to the number of named rows: all of `full_info` when every row has a name. */
  lemma {:induction false} ByAuthorTotal(rows: seq<FullRow>)
    ensures Total(ByAuthor(rows)) == CountNamed(rows)
    ensures (forall i :: 0 <= i < |rows| ==> rows[i].name.Some?) ==> Total(ByAuthor(rows)) == |rows|
  {
    if rows != [] {
      ByAuthorTotal(rows[..|rows| - 1]);
      if rows[|rows| - 1].name.Some? {
        TallyAddTotal(rows[|rows| - 1].name.value, ByAuthor(rows[..|rows| - 1]));
      }
    }
  }

  // ---------------------------------------------------------------------------
  // Per-author lists and their files
  // ---------------------------------------------------------------------------

  /** The `full_info` rows of one author, in their order. */
  function AuthorWorks(rows: seq<FullRow>, author: string): (r: seq<FullRow>)
    ensures IsSubsequence(r, rows)
    ensures forall x :: x in r <==> x in rows && x.name == Some(author)
  {
    Mask(rows, (x: FullRow) => x.name == Some(author))
  }

  /** The lines of an author's list file: each of the author's uuids as `uuid.jpg`, in `full_info` order. */
  function AuthorListLines(rows: seq<FullRow>, author: string): (lines: seq<string>)
    ensures |lines| == |AuthorWorks(rows, author)|
    ensures forall i :: 0 <= i < |lines| ==> lines[i] == Downloader.FileName(AuthorWorks(rows, author)[i].uuid)
  {
    var works := AuthorWorks(rows, author);
    seq(|works|, i requires 0 <= i < |works| => Downloader.FileName(works[i].uuid))
  }

  lemma {:induction false} AuthorWorksCount(rows: seq<FullRow>, author: string)
    ensures |AuthorWorks(rows, author)| == CountName(rows, author)
  {
    if rows != [] {
      var init := rows[..|rows| - 1];
      assert rows == init + [rows[|rows| - 1]];
      MaskSnoc(init, rows[|rows| - 1], (x: FullRow) => x.name == Some(author));
      AuthorWorksCount(init, author);
    }
  }

  /** Each author's list file has as many lines as `by_author` counts for that author. */
  lemma AuthorListMatchesCount(rows: seq<FullRow>, i: nat)
    requires i < |ByAuthor(rows)|
    ensures |AuthorListLines(rows, ByAuthor(rows)[i].name)| == ByAuthor(rows)[i].count
  {
    ByAuthorCounts(rows);
    AuthorWorksCount(rows, ByAuthor(rows)[i].name);
  }

  /** The file-name form of an author: spaces become underscores, then commas are dropped. */
  function SafeName(author: string): (r: string)
    ensures ' ' !in r && ',' !in r
    ensures |r| == |author| - CountChar(author, ',')
  {
    var underscored := ReplaceAll(author, " ", "_");
    ReplaceCharFacts(author, ' ', '_');
    DeleteCharFacts(underscored, ',');
    ReplaceAll(underscored, ",", "")
  }

  /** Making a safe name safe again changes nothing. */
  lemma SafeNameIdempotent(author: string)
    ensures SafeName(SafeName(author)) == SafeName(author)
  {
    var s := SafeName(author);
    NoCharNoOccurrence(s, ' ');
    ReplaceAllAbsent(s, " ", "_");
    NoCharNoOccurrence(s, ',');
    ReplaceAllAbsent(s, ",", "");
  }

  /** Two different authors can get the same safe name, and so the same list file. */
  lemma SafeNamesCanCollide()
    ensures SafeName("A B") == SafeName("A, B") == "A_B"
  {
    ReplaceCharStep("A B", ' ', "_");
    ReplaceCharStep(" B", ' ', "_");
    ReplaceCharStep("B", ' ', "_");
    assert ReplaceAll("A B", " ", "_") == "A_B";
    ReplaceCharStep("A_B", ',', "");
    ReplaceCharStep("_B", ',', "");
    ReplaceCharStep("B", ',', "");
    assert ReplaceAll("A_B", ",", "") == "A_B";
    ReplaceCharStep("A, B", ' ', "_");
    ReplaceCharStep(", B", ' ', "_");
    assert ReplaceAll("A, B", " ", "_") == "A,_B";
    ReplaceCharStep("A,_B", ',', "");
    ReplaceCharStep(",_B", ',', "");
    assert ReplaceAll("A,_B", ",", "") == "A_B";
  }

  /** The list file of an author: the safe name followed by `_images.txt`. */
  function ListFileName(author: string): string {
    SafeName(author) + "_images.txt"
  }

  /** A dictionary filled by assigning `values[i]` to `keys[i]` in turn: a later write to a key replaces an earlier one. */
  function Overwrite<K(!new), V>(keys: seq<K>, values: seq<V>): (m: map<K, V>)
    requires |keys| == |values|
    ensures forall k :: k in m <==> k in keys
  {
    if keys == [] then map[]
    else
      var n := |keys| - 1;
      assert keys == keys[..n] + [keys[n]];
      Overwrite(keys[..n], values[..n])[keys[n] := values[n]]
  }

  /** A key holds the value of its last write. */
  lemma {:induction false} LastWriteWins<K(!new), V>(keys: seq<K>, values: seq<V>, i: nat)
    requires |keys| == |values| && i < |keys|
    requires forall j :: i < j < |keys| ==> keys[j] != keys[i]
    ensures Overwrite(keys, values)[keys[i]] == values[i]
  {
    var n := |keys| - 1;
    if i < n {
      LastWriteWins(keys[..n], values[..n], i);
    }
  }

  function ListFileNames(authors: seq<string>): (names: seq<string>)
    ensures |names| == |authors| && forall i :: 0 <= i < |authors| ==> names[i] == ListFileName(authors[i])
  {
    seq(|authors|, i requires 0 <= i < |authors| => ListFileName(authors[i]))
  }

  function AuthorLists(rows: seq<FullRow>, authors: seq<string>): (lists: seq<seq<string>>)
    ensures |lists| == |authors| && forall i :: 0 <= i < |authors| ==> lists[i] == AuthorListLines(rows, authors[i])
  {
    seq(|authors|, i requires 0 <= i < |authors| => AuthorListLines(rows, authors[i]))
  }

  /**
   * The list files the loop over authors leaves behind, by name: one per
   * distinct list-file name, a later author overwriting an earlier one's file.
   */
  function AuthorFiles(rows: seq<FullRow>, authors: seq<string>): (files: map<string, seq<string>>)
    ensures forall f :: f in files <==> f in ListFileNames(authors)
  {
    Overwrite(ListFileNames(authors), AuthorLists(rows, authors))
  }

  /** An author's file holds exactly that author's list unless a later author's name maps to the same file. */
  lemma AuthorFileContents(rows: seq<FullRow>, authors: seq<string>, i: nat)
    requires i < |authors|
    requires forall j :: i < j < |authors| ==> ListFileName(authors[j]) != ListFileName(authors[i])
    ensures ListFileName(authors[i]) in AuthorFiles(rows, authors)
    ensures AuthorFiles(rows, authors)[ListFileName(authors[i])] == AuthorListLines(rows, authors[i])
  {
    LastWriteWins(ListFileNames(authors), AuthorLists(rows, authors), i);
  }

  /** The authors of `by_author`, in its order. */
  function AuthorNames(t: seq<AuthorCount>): (names: seq<string>)
    ensures |names| == |t| && forall i :: 0 <= i < |t| ==> names[i] == t[i].name
  {
    seq(|t|, i requires 0 <= i < |t| => t[i].name)
  }

  /** The loop over `by_author` leaves one list file for each name that occurs in `full_info`, and no other. */
  lemma ByAuthorFiles(rows: seq<FullRow>)
    ensures forall f :: f in AuthorFiles(rows, AuthorNames(ByAuthor(rows))) <==>
      exists k :: CountName(rows, k) > 0 && f == ListFileName(k)
  {
    var t := ByAuthor(rows);
    var authors := AuthorNames(t);
    var files := AuthorFiles(rows, authors);
    ByAuthorCounts(rows);
    forall f | f in files ensures exists k :: CountName(rows, k) > 0 && f == ListFileName(k) {
      var names := ListFileNames(authors);
      var i :| 0 <= i < |names| && names[i] == f;
      assert CountName(rows, t[i].name) > 0 && f == ListFileName(t[i].name);
    }
    forall k | CountName(rows, k) > 0 ensures ListFileName(k) in files {
      var i :| 0 <= i < |t| && t[i].name == k;
      assert ListFileNames(authors)[i] == ListFileName(k);
    }
  }

  // ---------------------------------------------------------------------------
  // dataset_info.csv
  // ---------------------------------------------------------------------------

  const DatasetInfoHeader: seq<string> := ["uuid", "preferreddisplayname", "title", "displaydate"]

  /** dataset_info.csv as records: a header, then uuid, display name, title and date of each `full_info` row. */
  function DatasetInfo(rows: seq<FullRow>): (csv: seq<seq<string>>)
    ensures |csv| == |rows| + 1 && csv[0] == DatasetInfoHeader
    ensures forall i :: 0 <= i < |rows| ==>
      csv[i + 1] == [rows[i].uuid, CsvCell(rows[i].name), CsvCell(rows[i].title), CsvCell(rows[i].displayDate)]
  {
    [DatasetInfoHeader] + seq(|rows|, i requires 0 <= i < |rows| =>
      [rows[i].uuid, CsvCell(rows[i].name), CsvCell(rows[i].title), CsvCell(rows[i].displayDate)])
  }
}
