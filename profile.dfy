/**
 * The wizard's `formData` record and the pure updates applied to it: setting
 * one text field (`handleInputChange`), toggling a challenge tag
 * (`handleChallengeToggle`) and the per-step completion gate (`canProceed`).
 */
module Profile {

  /** The flat `formData` record: ten text fields and the selected challenges. */
  datatype FormData = FormData(
    businessName: string,
    industry: string,
    growthStage: string,
    teamSize: string,
    mainChallenges: seq<string>,
    quarterlyGoals: string,
    currentRevenue: string,
    targetRevenue: string,
    majorObstacles: string,
    leadershipStyle: string,
    resourceConstraints: string)

  /** The initial record: every text field empty, no challenge selected. */
  const EmptyForm := FormData("", "", "", "", [], "", "", "", "", "", "")

  /** The keys the inputs pass to `handleInputChange`: every text field. */
  datatype TextField =
    | BusinessName | Industry | GrowthStage | TeamSize | QuarterlyGoals
    | CurrentRevenue | TargetRevenue | MajorObstacles | LeadershipStyle
    | ResourceConstraints

  /** `formData[field]` for a text field. */
  function Get(d: FormData, f: TextField): string {
    match f
    case BusinessName => d.businessName
    case Industry => d.industry
    case GrowthStage => d.growthStage
    case TeamSize => d.teamSize
    case QuarterlyGoals => d.quarterlyGoals
    case CurrentRevenue => d.currentRevenue
    case TargetRevenue => d.targetRevenue
    case MajorObstacles => d.majorObstacles
    case LeadershipStyle => d.leadershipStyle
    case ResourceConstraints => d.resourceConstraints
  }

  /** `{...prev, [field]: value}`: the named field takes the new value and
    * nothing else in the record changes. */
  function WithField(d: FormData, f: TextField, v: string): (r: FormData)
    ensures Get(r, f) == v
    ensures forall g :: g != f ==> Get(r, g) == Get(d, g)
    ensures r.mainChallenges == d.mainChallenges
  {
    match f
    case BusinessName => d.(businessName := v)
    case Industry => d.(industry := v)
    case GrowthStage => d.(growthStage := v)
    case TeamSize => d.(teamSize := v)
    case QuarterlyGoals => d.(quarterlyGoals := v)
    case CurrentRevenue => d.(currentRevenue := v)
    case TargetRevenue => d.(targetRevenue := v)
    case MajorObstacles => d.(majorObstacles := v)
    case LeadershipStyle => d.(leadershipStyle := v)
    case ResourceConstraints => d.(resourceConstraints := v)
  }

  /** Two records that agree on every text field and on the challenges are
    * the same record. */
  lemma FieldsDetermineRecord(d: FormData, e: FormData)
    requires forall f :: Get(d, f) == Get(e, f)
    requires d.mainChallenges == e.mainChallenges
    ensures d == e
  {
    assert Get(d, BusinessName) == Get(e, BusinessName);
    assert Get(d, Industry) == Get(e, Industry);
    assert Get(d, GrowthStage) == Get(e, GrowthStage);
    assert Get(d, TeamSize) == Get(e, TeamSize);
    assert Get(d, QuarterlyGoals) == Get(e, QuarterlyGoals);
    assert Get(d, CurrentRevenue) == Get(e, CurrentRevenue);
    assert Get(d, TargetRevenue) == Get(e, TargetRevenue);
    assert Get(d, MajorObstacles) == Get(e, MajorObstacles);
    assert Get(d, LeadershipStyle) == Get(e, LeadershipStyle);
    assert Get(d, ResourceConstraints) == Get(e, ResourceConstraints);
  }

  /** Writing a field's current value back leaves the record as it was, and a
    * second write to the same field overrides the first. */
  lemma WithFieldOverrides(d: FormData, f: TextField, v: string, w: string)
    ensures WithField(d, f, Get(d, f)) == d
    ensures WithField(WithField(d, f, v), f, w) == WithField(d, f, w)
  {
    FieldsDetermineRecord(WithField(d, f, Get(d, f)), d);
    FieldsDetermineRecord(WithField(WithField(d, f, v), f, w), WithField(d, f, w));
  }

  /** `list.filter(c => c !== tag)`: every occurrence of `tag` removed, every
    * other entry kept. */
  function RemoveAll(s: seq<string>, tag: string): (r: seq<string>)
    ensures forall x :: x in r <==> x in s && x != tag
    decreases |s|
  {
    if s == [] then []
    else (if s[0] == tag then [] else [s[0]]) + RemoveAll(s[1..], tag)
  }

  /** Filtering keeps each other entry as many times as it occurred. */
  lemma {:induction false} RemoveAllCounts(s: seq<string>, tag: string)
    ensures multiset(RemoveAll(s, tag)) == multiset(s)[tag := 0]
    decreases |s|
  {
    if s != [] {
      RemoveAllCounts(s[1..], tag);
      assert s == [s[0]] + s[1..];
    }
  }

  /** Filtering distributes over concatenation, so the entries that stay keep
    * their relative order. */
  lemma {:induction false} RemoveAllConcat(a: seq<string>, b: seq<string>, tag: string)
    ensures RemoveAll(a + b, tag) == RemoveAll(a, tag) + RemoveAll(b, tag)
    decreases |a|
  {
    if a == [] {
      assert a + b == b;
    } else {
      assert (a + b)[1..] == a[1..] + b;
      RemoveAllConcat(a[1..], b, tag);
    }
  }

  /** Filtering out a tag that is not in the list changes nothing. */
  lemma {:induction false} RemoveAllAbsent(s: seq<string>, tag: string)
    requires tag !in s
    ensures RemoveAll(s, tag) == s
    decreases |s|
  {
    if s != [] {
      RemoveAllAbsent(s[1..], tag);
    }
  }

  /** The challenge toggle: a present tag is filtered out, an absent one is
    * appended at the end. Either way the other entries keep their order and
    * their number of occurrences, which is what filtering both lists for the
    * tag shows. */
  function Toggle(s: seq<string>, tag: string): (r: seq<string>)
    ensures tag in r <==> tag !in s
    ensures forall x :: x != tag ==> (x in r <==> x in s)
    ensures tag !in s ==> r == s + [tag]
    ensures RemoveAll(r, tag) == RemoveAll(s, tag)
  {
    if tag in s then
      RemoveAllAbsent(RemoveAll(s, tag), tag);
      RemoveAll(s, tag)
    else
      RemoveAllConcat(s, [tag], tag);
      RemoveAllAbsent(s, tag);
      s + [tag]
  }

  /** No tag is selected twice. */
  predicate Distinct(s: seq<string>) {
    forall i, j :: 0 <= i < j < |s| ==> s[i] != s[j]
  }

  /** Toggling an absent tag twice restores the original list, order included. */
  lemma ToggleTwiceAbsent(s: seq<string>, tag: string)
    requires tag !in s
    ensures Toggle(Toggle(s, tag), tag) == s
  {
    RemoveAllConcat(s, [tag], tag);
    RemoveAllAbsent(s, tag);
  }

  /** Toggling a present tag twice removes its copies and puts one at the end. */
  lemma ToggleTwicePresent(s: seq<string>, tag: string)
    requires tag in s
    ensures Toggle(Toggle(s, tag), tag) == RemoveAll(s, tag) + [tag]
  {
  }

  /** Filtering keeps a list free of duplicates. */
  lemma {:induction false} RemoveAllDistinct(s: seq<string>, tag: string)
    requires Distinct(s)
    ensures Distinct(RemoveAll(s, tag))
    decreases |s|
  {
    if s != [] {
      var rest := RemoveAll(s[1..], tag);
      RemoveAllDistinct(s[1..], tag);
      if s[0] != tag {
        assert s[0] !in s[1..];
        assert s[0] !in rest;
        var r := [s[0]] + rest;
        forall i, j | 0 <= i < j < |r| ensures r[i] != r[j] {
          if i == 0 {
            assert r[j] == rest[j - 1];
          } else {
            assert r[i] == rest[i - 1] && r[j] == rest[j - 1];
          }
        }
      }
    }
  }

  /** A toggle never introduces a duplicate, so the selected challenges stay
    * a set in insertion order. */
  lemma ToggleDistinct(s: seq<string>, tag: string)
    requires Distinct(s)
    ensures Distinct(Toggle(s, tag))
  {
    if tag in s {
      RemoveAllDistinct(s, tag);
    }
  }

  /** The text fields a step requires to be non-empty. */
  function RequiredFields(step: int): seq<TextField> {
    if step == 0 then [BusinessName, Industry, GrowthStage, TeamSize]
    else if step == 1 then [CurrentRevenue, TargetRevenue]
    else if step == 2 then [QuarterlyGoals, LeadershipStyle]
    else []
  }

  /** `canProceed()`: the completion gate of the current step. Steps 0 to 2
    * need their required text fields filled in, step 1 also at least one
    * challenge; any other step never proceeds. */
  function CanProceed(step: int, d: FormData): (r: bool)
    ensures r <==>
      && 0 <= step <= 2
      && (step == 1 ==> |d.mainChallenges| > 0)
      && forall f :: f in RequiredFields(step) ==> Get(d, f) != ""
  {
    match step
    case 0 =>
      assert Get(d, BusinessName) == d.businessName && Get(d, Industry) == d.industry;
      assert Get(d, GrowthStage) == d.growthStage && Get(d, TeamSize) == d.teamSize;
      d.businessName != "" && d.industry != "" && d.growthStage != "" && d.teamSize != ""
    case 1 =>
      assert Get(d, CurrentRevenue) == d.currentRevenue && Get(d, TargetRevenue) == d.targetRevenue;
      |d.mainChallenges| > 0 && d.currentRevenue != "" && d.targetRevenue != ""
    case 2 =>
      assert Get(d, QuarterlyGoals) == d.quarterlyGoals && Get(d, LeadershipStyle) == d.leadershipStyle;
      d.quarterlyGoals != "" && d.leadershipStyle != ""
    case _ => false
  }

  /** Editing a field that the step does not require leaves its gate as it was;
    * clearing a field that it does require closes the gate. */
  lemma EditAndGate(step: int, d: FormData, f: TextField, v: string)
    ensures f !in RequiredFields(step) ==> CanProceed(step, WithField(d, f, v)) == CanProceed(step, d)
    ensures f in RequiredFields(step) && v == "" ==> !CanProceed(step, WithField(d, f, v))
  {
  }

  /** Only step 1 looks at the challenges, and there selecting a tag that was
    * not yet selected never closes the gate. */
  lemma ToggleAndGate(step: int, d: FormData, tag: string)
    ensures step != 1 ==> CanProceed(step, d.(mainChallenges := Toggle(d.mainChallenges, tag))) == CanProceed(step, d)
    ensures tag !in d.mainChallenges && CanProceed(step, d) ==> CanProceed(step, d.(mainChallenges := Toggle(d.mainChallenges, tag)))
  {
  }
}
