/** The row projector: one flat row per profile, missing keys replaced by defaults. */
module Projection {
  import opened Wrappers
  import opened Text
  import opened Records

  /** The separator `roles` are joined with. */
  const RoleSeparator := ", "

  /**
   * The row of one profile: each field is the profile's value when the key is present and
   * the default (`""`, or `0` for the count) when it is absent; roles are joined with ", ".
   */
  function ProjectRow(p: Profile): (r: Row)
    ensures p.username.Some? ==> r.username == p.username.value
    ensures p.username.None? ==> r.username == ""
    ensures p.fullName.Some? ==> r.fullName == p.fullName.value
    ensures p.fullName.None? ==> r.fullName == ""
    ensures p.company.Some? ==> r.company == p.company.value
    ensures p.company.None? ==> r.company == ""
    ensures p.companySize.Some? ==> r.companySize == p.companySize.value
    ensures p.companySize.None? ==> r.companySize == ""
    ensures p.evidenceCount.Some? ==> r.evidenceCount == p.evidenceCount.value
    ensures p.evidenceCount.None? ==> r.evidenceCount == 0
    ensures p.firstEvidenceDate.Some? ==> r.firstDate == p.firstEvidenceDate.value
    ensures p.firstEvidenceDate.None? ==> r.firstDate == ""
    ensures p.latestEvidenceDate.Some? ==> r.latestDate == p.latestEvidenceDate.value
    ensures p.latestEvidenceDate.None? ==> r.latestDate == ""
    ensures (p.roles.None? || p.roles.value == []) ==> r.roles == ""
    ensures p.roles.Some? && |p.roles.value| == 1 ==> r.roles == p.roles.value[0]
  {
    Row(
      username := p.username.GetOr(""),
      fullName := p.fullName.GetOr(""),
      roles := Join(p.roles.GetOr([]), RoleSeparator),
      company := p.company.GetOr(""),
      companySize := p.companySize.GetOr(""),
      evidenceCount := p.evidenceCount.GetOr(0),
      firstDate := p.firstEvidenceDate.GetOr(""),
      latestDate := p.latestEvidenceDate.GetOr(""))
  }

  /** The table: the rows of the profiles, position by position. */
  function Project(profiles: seq<Profile>): seq<Row> {
    seq(|profiles|, i requires 0 <= i < |profiles| => ProjectRow(profiles[i]))
  }

  /** `extract_dataframe`: builds the rows one profile at a time. */
  method ExtractRows(doc: Document) returns (rows: seq<Row>)
    ensures |rows| == |ProfilesOf(doc)|
    ensures forall i :: 0 <= i < |rows| ==> rows[i] == ProjectRow(ProfilesOf(doc)[i])
    ensures rows == Project(ProfilesOf(doc))
  {
    var profiles := ProfilesOf(doc);
    rows := [];
    for k := 0 to |profiles|
      invariant |rows| == k
      invariant forall i :: 0 <= i < k ==> rows[i] == ProjectRow(profiles[i])
    {
      rows := rows + [ProjectRow(profiles[k])];
    }
  }
}
