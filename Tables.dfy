/**
 * The four tables of the museum's open-data corpus, one datatype per row.
 * A missing CSV cell (pandas NaN) is `None`.
 */
module Tables {
  import opened Wrappers

  /** A row of published_images.csv; `objectId` is `depictstmsobjectid`. */
  datatype ImageRow = ImageRow(uuid: string, objectId: int, iiifUrl: Option<string>)

  /** A row of objects.csv. */
  datatype ObjectRow = ObjectRow(
    objectId: int,
    title: Option<string>,
    displayDate: Option<string>,
    classification: Option<string>,
    subclassification: Option<string>,
    medium: Option<string>)

  /** A row of constituents.csv; `name` is `preferreddisplayname`. */
  datatype Constituent = Constituent(
    constituentId: int,
    name: Option<string>,
    nationality: Option<string>,
    displayDate: Option<string>,
    artistOfNgaObject: Option<int>)

  /** A row of objects_constituents.csv. */
  datatype Link = Link(objectId: int, constituentId: int, roleType: string)

  /** `roletype == 'artist'`: the link records authorship. */
  predicate IsArtistLink(l: Link) {
    l.roleType == "artist"
  }

  /** `to_csv` writes a missing cell as an empty field. */
  function CsvCell(v: Option<string>): string {
    v.GetOr("")
  }
}
