/**
 * The records of the loaded JSON document. Every key of a profile or an evidence item
 * may be absent, so each field is an Option; the defaults are applied where the source
 * reads the field, not here.
 */
module Records {
  import opened Wrappers

  /** One evidence item: a dated quote with a link. */
  datatype Evidence = Evidence(
    date: Option<string>,
    quote: Option<string>,
    tweetUrl: Option<string>)

  /** One researched individual. `evidenceCount` is the stored count, trusted as is. */
  datatype Profile = Profile(
    username: Option<string>,
    fullName: Option<string>,
    roles: Option<seq<string>>,
    company: Option<string>,
    companySize: Option<string>,
    profileUrl: Option<string>,
    evidenceCount: Option<int>,
    firstEvidenceDate: Option<string>,
    latestEvidenceDate: Option<string>,
    evidence: Option<seq<Evidence>>)

  /** The root object; only the `profiles` key takes part in the data shaping. */
  datatype Document = Document(profiles: Option<seq<Profile>>)

  /** `data.get("profiles", [])`. */
  function ProfilesOf(doc: Document): seq<Profile> {
    doc.profiles.GetOr([])
  }

  /** One row of the flat table built from a profile, with every default already applied. */
  datatype Row = Row(
    username: string,
    fullName: string,
    roles: string,
    company: string,
    companySize: string,
    evidenceCount: int,
    firstDate: string,
    latestDate: string)
}
