/** The pure derivations of the dashboard: the momentum statistics, the
    growth badge, the timeline's colour, icon and star per entry, and the
    single-skill detail panel. */
module Dashboard {
  import opened Wrappers
  import opened Text
  import opened Profile

  // ---------------------------------------------------------------------
  // Momentum statistics

  /** Momentum of the last point, or 0 for an empty trajectory. */
  function CurrentMomentum(trajectory: seq<TrajectoryPoint>): (m: int)
    ensures |trajectory| == 0 ==> m == 0
    ensures |trajectory| > 0 ==> m == trajectory[|trajectory| - 1].momentum
  {
    if |trajectory| == 0 then 0 else trajectory[|trajectory| - 1].momentum
  }

  /** Momentum of the first point, or 0 for an empty trajectory. */
  function StartMomentum(trajectory: seq<TrajectoryPoint>): (m: int)
    ensures |trajectory| == 0 ==> m == 0
    ensures |trajectory| > 0 ==> m == trajectory[0].momentum
  {
    if |trajectory| == 0 then 0 else trajectory[0].momentum
  }

  /** The highest momentum of a non-empty trajectory. */
  function PeakMomentum(trajectory: seq<TrajectoryPoint>): (peak: int)
    requires |trajectory| > 0
    ensures forall i :: 0 <= i < |trajectory| ==> trajectory[i].momentum <= peak
    ensures exists i :: 0 <= i < |trajectory| && trajectory[i].momentum == peak
    decreases |trajectory|
  {
    if |trajectory| == 1 then trajectory[0].momentum
    else
      var rest := PeakMomentum(trajectory[1..]);
      assert forall i :: 1 <= i < |trajectory| ==> trajectory[i] == trajectory[1..][i - 1];
      if trajectory[0].momentum >= rest then trajectory[0].momentum else rest
  }

  datatype Stats = Stats(current: int, peak: int, delta: int)

  /** The three figures of the `stats` memo for a non-empty trajectory. */
  function ComputeStats(trajectory: seq<TrajectoryPoint>): (st: Stats)
    requires |trajectory| > 0
    ensures st.current == trajectory[|trajectory| - 1].momentum
    ensures st.delta == st.current - trajectory[0].momentum
    ensures st.peak >= st.current && st.peak >= trajectory[0].momentum
    ensures forall i :: 0 <= i < |trajectory| ==> trajectory[i].momentum <= st.peak
    ensures exists i :: 0 <= i < |trajectory| && trajectory[i].momentum == st.peak
  {
    var current := CurrentMomentum(trajectory);
    Stats(current, PeakMomentum(trajectory), current - StartMomentum(trajectory))
  }

  /** With an empty trajectory current, start and delta are all zero. */
  lemma EmptyTrajectoryStats()
    ensures CurrentMomentum([]) == 0 && StartMomentum([]) == 0
    ensures CurrentMomentum([]) - StartMomentum([]) == 0
  {
  }

  /** For a profile whose scores lie on their scale, the statistics do too:
      current and peak within 0..100 and delta within -100..100. */
  lemma ValidStatsInRange(p: UserProfile)
    requires ValidProfile(p) && |p.trajectory| > 0
    ensures var st := ComputeStats(p.trajectory);
      IsPercent(st.current) && IsPercent(st.peak) && -100 <= st.delta <= 100
  {
    var st := ComputeStats(p.trajectory);
    var i :| 0 <= i < |p.trajectory| && p.trajectory[i].momentum == st.peak;
    assert IsPercent(p.trajectory[i].momentum);
    assert IsPercent(p.trajectory[|p.trajectory| - 1].momentum);
    assert IsPercent(p.trajectory[0].momentum);
  }

  /** The "Growth Score" badge text: `+`, the delta as JavaScript prints
      it (a `-` for a negative delta, then its digits without leading
      zeros), `%`. The plus sign is written whatever the sign of the
      delta. */
  function GrowthBadge(delta: int): (badge: string)
    ensures |badge| >= 3 && badge[0] == '+' && badge[|badge| - 1] == '%'
    ensures ParseInt(badge[1..|badge| - 1]) == Some(delta)
    ensures delta < 0 <==> badge[1] == '-'
    ensures CanonicalDigits(if delta < 0 then badge[2..|badge| - 1] else badge[1..|badge| - 1])
  {
    var badge := "+" + IntToDecimal(delta) + "%";
    assert badge[1..|badge| - 1] == IntToDecimal(delta);
    ParseIntToDecimal(delta);
    badge
  }

  /** A trajectory rising from 40 to 82 shows a growth badge of +42%. */
  lemma GrowthFortyTwo()
    ensures GrowthBadge(82 - 40) == "+42%"
  {
    assert NatToDecimal(42) == NatToDecimal(4) + [DigitChar(2)];
  }

  // ---------------------------------------------------------------------
  // Timeline entries

  /** The four colour themes of the timeline cards, in palette order. */
  datatype Theme = Emerald | Purple | Cyan | Indigo

  const Palette: seq<Theme> := [Emerald, Purple, Cyan, Indigo]

  /** The theme of the card at position `index`: the palette read
      cyclically, so cards 0, 4, 8, ... are emerald, 1, 5, 9, ... purple,
      and so on. */
  function ColorByIndex(index: nat): (t: Theme)
    ensures t == Emerald <==> index % 4 == 0
    ensures t == Purple <==> index % 4 == 1
    ensures t == Cyan <==> index % 4 == 2
    ensures t == Indigo <==> index % 4 == 3
  {
    Palette[index % |Palette|]
  }

  /** The palette repeats every four cards and neighbouring cards never
      share a colour. */
  lemma ColorCycle(index: nat)
    ensures ColorByIndex(index + 4) == ColorByIndex(index)
    ensures ColorByIndex(index) == ColorByIndex(index % 4)
    ensures ColorByIndex(index + 1) != ColorByIndex(index)
  {
  }

  datatype Icon = Briefcase | TrendingUp | Rocket | GraduationCap

  /** The icon for a milestone date label, by the year `parseInt` reads
      from it. */
  function IconByYear(year: string): (icon: Icon)
    ensures icon == TrendingUp <==> ParseInt(year).Some? && ParseInt(year).value > 2023
    ensures icon == Rocket <==> ParseInt(year) == Some(2023)
    ensures icon == GraduationCap <==> ParseInt(year).Some? && ParseInt(year).value < 2022
    ensures icon == Briefcase <==> ParseInt(year).None? || ParseInt(year) == Some(2022)
  {
    match ParseInt(year)
    case None => Briefcase
    case Some(y) =>
      if y > 2023 then TrendingUp
      else if y == 2023 then Rocket
      else if y < 2022 then GraduationCap
      else Briefcase
  }

  /** For a label that is a plain year, the icon follows the year: later
      than 2023, 2023, 2022, or earlier. */
  lemma IconOfPlainYear(y: int)
    ensures IconByYear(IntToDecimal(y)) ==
      if y > 2023 then TrendingUp
      else if y == 2023 then Rocket
      else if y == 2022 then Briefcase
      else GraduationCap
  {
    ParseIntToDecimal(y);
  }

  /** A label that starts with a year and goes on with other text, as in
      "2019 - 2021", gets the icon of that first year. */
  lemma IconOfYearRange(y: int, rest: string)
    requires rest == [] || !IsDigit(rest[0])
    ensures IconByYear(IntToDecimal(y) + rest) == IconByYear(IntToDecimal(y))
  {
    ParseIntPrefix(y, rest);
    ParseIntToDecimal(y);
  }

  /** A label that does not start with a number, after any leading
      whitespace and sign, gets the briefcase. */
  lemma IconOfTextLabel(date: string)
    requires date == [] || (!IsSpace(date[0]) && !IsDigit(date[0]) && date[0] != '+' && date[0] != '-')
    ensures IconByYear(date) == Briefcase
  {
    assert LeadingSpaces(date) == 0;
    assert date[0..] == date;
  }

  /** "Present", the usual label of the current position. */
  lemma IconOfPresent()
    ensures IconByYear("Present") == Briefcase
  {
    IconOfTextLabel("Present");
  }

  /** What the timeline shows for one trajectory point. */
  datatype TimelineEntry = TimelineEntry(point: TrajectoryPoint, theme: Theme, icon: Icon, starred: bool)

  /** The career timeline: one entry per point, in trajectory order. */
  function Timeline(trajectory: seq<TrajectoryPoint>): (entries: seq<TimelineEntry>)
    ensures |entries| == |trajectory|
    ensures forall i :: 0 <= i < |entries| ==> entries[i].point == trajectory[i]
    ensures forall i :: 0 <= i < |entries| ==> (entries[i].starred <==> i < 2)
    ensures forall i :: 0 <= i < |entries| ==> entries[i].theme == ColorByIndex(i)
    ensures forall i :: 0 <= i < |entries| ==> entries[i].icon == IconByYear(trajectory[i].date)
  {
    seq(|trajectory|, i requires 0 <= i < |trajectory| => Entry(trajectory[i], i))
  }

  function Entry(point: TrajectoryPoint, index: nat): (entry: TimelineEntry) {
    TimelineEntry(point, ColorByIndex(index), IconByYear(point.date), index < 2)
  }

  /** Number of starred entries. */
  function StarCount(entries: seq<TimelineEntry>): (n: nat)
    decreases |entries|
  {
    if |entries| == 0 then 0
    else StarCount(entries[..|entries| - 1]) + (if entries[|entries| - 1].starred then 1 else 0)
  }

  /** Exactly the first two milestones carry a star: a timeline shows
      min(2, n) stars. */
  lemma {:induction false} TimelineStars(trajectory: seq<TrajectoryPoint>)
    ensures StarCount(Timeline(trajectory)) == if |trajectory| < 2 then |trajectory| else 2
    decreases |trajectory|
  {
    if |trajectory| > 0 {
      var n := |trajectory|;
      TimelineStars(trajectory[..n - 1]);
      assert Timeline(trajectory)[..n - 1] == Timeline(trajectory[..n - 1]);
    }
  }

  // ---------------------------------------------------------------------
  // Skill detail panel

  /** What can happen to the skill panel: a click on the bar chart (with
      the index of the category row under the pointer, or none for a click
      outside the plot area), or either of the panel's two close controls. */
  datatype SkillEvent = ChartClick(bar: Option<nat>) | CloseButton | ReturnToOverview

  /** The selected skill after one event: a click on a category row
      selects that row's skill, a click outside the plot area changes
      nothing, closing clears. */
  function SelectSkill(skills: seq<Skill>, selected: Option<Skill>, e: SkillEvent): (r: Option<Skill>)
    ensures e.ChartClick? && e.bar.Some? && e.bar.value < |skills| ==> r == Some(skills[e.bar.value])
    ensures e.ChartClick? && (e.bar.None? || e.bar.value >= |skills|) ==> r == selected
    ensures e.CloseButton? || e.ReturnToOverview? ==> r == None
  {
    match e
    case ChartClick(bar) =>
      if bar.Some? && bar.value < |skills| then Some(skills[bar.value]) else selected
    case CloseButton => None
    case ReturnToOverview => None
  }

  /** The selection is always empty or one of the profile's skills. */
  lemma SelectionIsASkill(skills: seq<Skill>, selected: Option<Skill>, e: SkillEvent)
    requires selected.None? || selected.value in skills
    ensures var r := SelectSkill(skills, selected, e); r.None? || r.value in skills
  {
  }

  /** Clicking the same bar twice shows the same skill as clicking it once. */
  lemma ReselectIdempotent(skills: seq<Skill>, selected: Option<Skill>, bar: Option<nat>)
    ensures SelectSkill(skills, SelectSkill(skills, selected, ChartClick(bar)), ChartClick(bar))
         == SelectSkill(skills, selected, ChartClick(bar))
  {
  }
}
