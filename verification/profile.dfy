/** The profile record every view reads, and the top-level view names.
    Numbers that the source types as `number` and documents as scores are
    integers here; their 0..100 range is a validity predicate, because
    nothing in the program enforces it. */
module Profile {
  import opened Wrappers

  datatype Experience = Experience(company: string, role: string, period: string, impact: string)

  datatype Skill = Skill(name: string, level: int, surge: bool, category: string)

  /** One career milestone. Only `milestone` may be absent. */
  datatype TrajectoryPoint = TrajectoryPoint(
    date: string,
    momentum: int,
    title: string,
    subtitle: string,
    description: string,
    milestone: Option<string>)

  /** The four relationship kinds a connection can have. */
  datatype ConnectionType = Colleague | Mentor | Client | Referral

  datatype Connection = Connection(
    name: string,
    role: string,
    kind: ConnectionType,
    strength: int,
    roleHistory: seq<string>,
    sharedConnections: seq<string>)

  datatype Personal = Personal(name: string, title: string, location: string, summary: string)

  datatype Analysis = Analysis(
    salaryEstimate: string,
    wellBeingMetric: int,
    educationDeepDive: string,
    marketFit: string)

  /** All six sections are always present; the four lists may be empty. */
  datatype UserProfile = UserProfile(
    personal: Personal,
    experience: seq<Experience>,
    skills: seq<Skill>,
    trajectory: seq<TrajectoryPoint>,
    connections: seq<Connection>,
    analysis: Analysis)

  /** The application's four top-level screens. */
  datatype ViewState = Landing | Uploading | Dashboard | Portfolio

  /** A score on the documented 0..100 scale. */
  predicate IsPercent(n: int) {
    0 <= n <= 100
  }

  /** Every documented score of the profile lies on its 0..100 scale. */
  predicate ValidProfile(p: UserProfile) {
    && (forall i :: 0 <= i < |p.skills| ==> IsPercent(p.skills[i].level))
    && (forall i :: 0 <= i < |p.trajectory| ==> IsPercent(p.trajectory[i].momentum))
    && (forall i :: 0 <= i < |p.connections| ==> IsPercent(p.connections[i].strength))
    && IsPercent(p.analysis.wellBeingMetric)
  }
}
