// Hospital selection of the emergency assistant: keep the hospitals whose
// availability report says available, score each by 0.7/travel + 0.3/wait
// (both clamped away from zero), and pick the best score; on equal scores the
// hospital earliest in the configured list wins, as with Python's stable
// `sorted(..., reverse=True)` followed by `[0]`.

module Selection {

  datatype Option<T> = None | Some(value: T)

  datatype Coordinates = Coordinates(lat: real, lon: real)

  datatype Hospital = Hospital(
    id: string,
    name: string,
    address: string,
    contactNumber: string,
    coordinates: Coordinates)

  /** What the availability check reports for one hospital. */
  datatype HospitalAvailability = HospitalAvailability(available: bool, waitTime: int)

  /** What the traffic analysis reports for one hospital. */
  datatype TrafficAnalysis = TrafficAnalysis(travelTime: int, distanceKm: real)

  /** Both reports obtained for one hospital during one selection run. */
  datatype Report = Report(availability: HospitalAvailability, traffic: TrafficAnalysis)

  /** One entry of the ranking: the hospital, its position in the configured
      list (which decides ties), the clamped travel time and the score. */
  datatype Candidate = Candidate(hospital: Hospital, position: nat, travelTime: int, score: real)

  /** The guard against division by zero: a time of 0 becomes 1, any other
      time is kept. */
  function AtLeastOne(time: int): (r: int)
    ensures r != 0
    ensures time == 0 ==> r == 1
    ensures time != 0 ==> r == time
    ensures time >= 0 ==> r >= 1
  {
    if time == 0 then 1 else time
  }

  /** The composite score; both times must be non-zero. */
  function Score(travelTime: int, waitTime: int): (r: real)
    requires travelTime != 0 && waitTime != 0
    ensures travelTime >= 1 && waitTime >= 1 ==> 0.0 < r <= 1.0
    ensures travelTime == 1 && waitTime == 1 ==> r == 1.0
  {
    0.7 * (1.0 / travelTime as real) + 0.3 * (1.0 / waitTime as real)
  }

  /** The score a hospital with this report receives. */
  function ReportScore(r: Report): real
  {
    Score(AtLeastOne(r.traffic.travelTime), AtLeastOne(r.availability.waitTime))
  }

  /** With the wait time fixed, a shorter (positive) travel time scores
      strictly higher. */
  lemma ShorterTravelScoresHigher(t1: int, t2: int, w: int)
    requires 1 <= t1 < t2 && w != 0
    ensures Score(t1, w) > Score(t2, w)
  {
  }

  /** With the travel time fixed, a shorter (positive) wait time scores
      strictly higher. */
  lemma ShorterWaitScoresHigher(t: int, w1: int, w2: int)
    requires 1 <= w1 < w2 && t != 0
    ensures Score(t, w1) > Score(t, w2)
  {
  }

  /** The ranking entry for the hospital at `position`: none when it is not
      available. */
  function Entry(h: Hospital, position: nat, r: Report): (cs: seq<Candidate>)
    ensures |cs| <= 1
    ensures cs != [] <==> r.availability.available
    ensures cs != [] ==> cs[0].hospital == h && cs[0].position == position &&
                         cs[0].travelTime == AtLeastOne(r.traffic.travelTime) &&
                         cs[0].travelTime != 0 && cs[0].score == ReportScore(r)
  {
    if r.availability.available then
      [Candidate(h, position, AtLeastOne(r.traffic.travelTime), ReportScore(r))]
    else []
  }

  /** The ranking list the loop builds: one entry per available hospital, in
      list order. */
  function Ranked(hospitals: seq<Hospital>, reports: seq<Report>): (cs: seq<Candidate>)
    requires |reports| == |hospitals|
    ensures |cs| <= |hospitals|
    decreases |hospitals|
  {
    if |hospitals| == 0 then []
    else
      var n := |hospitals| - 1;
      Ranked(hospitals[..n], reports[..n]) + Entry(hospitals[n], n, reports[n])
  }

  /** The first entry of a stable descending sort by score: a later entry
      replaces the best so far only when it scores strictly higher. */
  function Best(cs: seq<Candidate>): (r: Option<Candidate>)
    ensures r.None? <==> cs == []
    ensures r.Some? ==> r.value in cs
    decreases |cs|
  {
    if |cs| == 0 then None
    else
      var sofar := Best(cs[..|cs| - 1]);
      var last := cs[|cs| - 1];
      if sofar.None? || last.score > sofar.value.score then Some(last) else sofar
  }

  /** The ranking entry the selection returns. */
  function SelectOptimal(hospitals: seq<Hospital>, reports: seq<Report>): (r: Option<Candidate>)
    requires |reports| == |hospitals|
    ensures r.None? <==> Ranked(hospitals, reports) == []
    ensures r.Some? ==> r.value in Ranked(hospitals, reports)
  {
    Best(Ranked(hospitals, reports))
  }

  /** The hospital of an optional ranking entry. */
  function HospitalOf(c: Option<Candidate>): Option<Hospital>
  {
    match c
    case None => None
    case Some(cand) => Some(cand.hospital)
  }

  /** Index `k` of `cs` holds a maximal score, and every earlier entry scores
      strictly lower. */
  ghost predicate FirstMaximum(cs: seq<Candidate>, k: int)
  {
    0 <= k < |cs| &&
    (forall j :: 0 <= j < |cs| ==> cs[j].score <= cs[k].score) &&
    (forall j :: 0 <= j < k ==> cs[j].score < cs[k].score)
  }

  /** The hospital at position `i` is available, scores at least as high as
      every available hospital, and strictly higher than every available
      hospital before it in the list. */
  ghost predicate IsFirstBest(hospitals: seq<Hospital>, reports: seq<Report>, i: int)
    requires |reports| == |hospitals|
  {
    0 <= i < |hospitals| && reports[i].availability.available &&
    (forall j :: 0 <= j < |hospitals| && reports[j].availability.available ==>
       ReportScore(reports[j]) <= ReportScore(reports[i])) &&
    (forall j :: 0 <= j < i && reports[j].availability.available ==>
       ReportScore(reports[j]) < ReportScore(reports[i]))
  }

  /** Best is empty only on an empty ranking, and otherwise returns the first
      entry with the maximal score. */
  lemma {:induction false} BestIsFirstMaximum(cs: seq<Candidate>)
    ensures Best(cs).None? <==> cs == []
    ensures Best(cs).Some? ==> exists k :: FirstMaximum(cs, k) && cs[k] == Best(cs).value
  {
    if |cs| > 0 {
      var n := |cs| - 1;
      var init := cs[..n];
      BestIsFirstMaximum(init);
      var last := cs[n];
      assert forall j :: 0 <= j < n ==> cs[j] == init[j];
      if Best(init).None? {
        assert FirstMaximum(cs, 0);
      } else {
        var k :| FirstMaximum(init, k) && init[k] == Best(init).value;
        if last.score > Best(init).value.score {
          assert FirstMaximum(cs, n);
        } else {
          assert FirstMaximum(cs, k);
        }
      }
    }
  }

  /** Every ranking entry is an available hospital of the list, at its
      position, with the clamped travel time and the score of its report. */
  lemma {:induction false} RankedSound(hospitals: seq<Hospital>, reports: seq<Report>, k: int)
    requires |reports| == |hospitals|
    requires 0 <= k < |Ranked(hospitals, reports)|
    ensures var c := Ranked(hospitals, reports)[k];
      c.position < |hospitals| && c.hospital == hospitals[c.position] &&
      reports[c.position].availability.available &&
      c.travelTime == AtLeastOne(reports[c.position].traffic.travelTime) &&
      c.score == ReportScore(reports[c.position])
  {
    var n := |hospitals| - 1;
    var prefix := Ranked(hospitals[..n], reports[..n]);
    if k < |prefix| {
      RankedSound(hospitals[..n], reports[..n], k);
      assert Ranked(hospitals, reports)[k] == prefix[k];
    }
  }

  /** The ranking keeps list order: positions strictly increase. */
  lemma {:induction false} RankedOrdered(hospitals: seq<Hospital>, reports: seq<Report>, k: int, l: int)
    requires |reports| == |hospitals|
    requires 0 <= k < l < |Ranked(hospitals, reports)|
    ensures Ranked(hospitals, reports)[k].position < Ranked(hospitals, reports)[l].position
  {
    var n := |hospitals| - 1;
    var prefix := Ranked(hospitals[..n], reports[..n]);
    assert Ranked(hospitals, reports)[k] == prefix[k];
    if l < |prefix| {
      RankedOrdered(hospitals[..n], reports[..n], k, l);
      assert Ranked(hospitals, reports)[l] == prefix[l];
    } else {
      RankedSound(hospitals[..n], reports[..n], k);
    }
  }

  /** Every available hospital has an entry in the ranking. */
  lemma {:induction false} RankedComplete(hospitals: seq<Hospital>, reports: seq<Report>, i: int)
    requires |reports| == |hospitals|
    requires 0 <= i < |hospitals| && reports[i].availability.available
    ensures exists k :: 0 <= k < |Ranked(hospitals, reports)| &&
                        Ranked(hospitals, reports)[k].position == i
  {
    var n := |hospitals| - 1;
    var prefix := Ranked(hospitals[..n], reports[..n]);
    if i == n {
      assert Ranked(hospitals, reports)[|prefix|].position == i;
    } else {
      assert hospitals[..n][i] == hospitals[i] && reports[..n][i] == reports[i];
      RankedComplete(hospitals[..n], reports[..n], i);
      var k :| 0 <= k < |prefix| && prefix[k].position == i;
      assert Ranked(hospitals, reports)[k].position == i;
    }
  }

  /** The selection finds nothing exactly when no hospital of the list is
      available, in particular when the list is empty. */
  lemma SelectNoneIff(hospitals: seq<Hospital>, reports: seq<Report>)
    requires |reports| == |hospitals|
    ensures SelectOptimal(hospitals, reports).None? <==>
              forall i :: 0 <= i < |hospitals| ==> !reports[i].availability.available
  {
    BestIsFirstMaximum(Ranked(hospitals, reports));
    if exists i :: 0 <= i < |hospitals| && reports[i].availability.available {
      var i :| 0 <= i < |hospitals| && reports[i].availability.available;
      RankedComplete(hospitals, reports, i);
    } else if Ranked(hospitals, reports) != [] {
      RankedSound(hospitals, reports, 0);
    }
  }

  /** A selected entry names an available hospital of the list that has the
      maximal score, and is the earliest in list order among those with that
      score. */
  lemma SelectIsFirstBest(hospitals: seq<Hospital>, reports: seq<Report>)
    requires |reports| == |hospitals|
    ensures SelectOptimal(hospitals, reports).Some? ==>
      var c := SelectOptimal(hospitals, reports).value;
      IsFirstBest(hospitals, reports, c.position) &&
      hospitals[c.position] == c.hospital &&
      c.score == ReportScore(reports[c.position])
  {
    var cs := Ranked(hospitals, reports);
    BestIsFirstMaximum(cs);
    if Best(cs).Some? {
      var k :| FirstMaximum(cs, k) && cs[k] == Best(cs).value;
      RankedSound(hospitals, reports, k);
      var i := cs[k].position;
      forall j | 0 <= j < |hospitals| && reports[j].availability.available
        ensures ReportScore(reports[j]) <= ReportScore(reports[i])
        ensures j < i ==> ReportScore(reports[j]) < ReportScore(reports[i])
      {
        RankedComplete(hospitals, reports, j);
        var l :| 0 <= l < |cs| && cs[l].position == j;
        RankedSound(hospitals, reports, l);
        assert cs[l].score <= cs[k].score;
        if j < i {
          if k < l {
            RankedOrdered(hospitals, reports, k, l);
          }
          assert l < k;
          assert cs[l].score < cs[k].score;
        }
      }
    }
  }

  /** At most one position of the list is the first best. */
  lemma FirstBestUnique(hospitals: seq<Hospital>, reports: seq<Report>, i: int, j: int)
    requires |reports| == |hospitals|
    requires IsFirstBest(hospitals, reports, i) && IsFirstBest(hospitals, reports, j)
    ensures i == j
  {
  }

  /** Extending the hospital list by one hospital extends the ranking by that
      hospital's entry. */
  lemma RankedStep(hospitals: seq<Hospital>, reports: seq<Report>, i: int)
    requires |reports| == |hospitals| && 0 <= i < |hospitals|
    ensures Ranked(hospitals[..i + 1], reports[..i + 1]) ==
            Ranked(hospitals[..i], reports[..i]) + Entry(hospitals[i], i, reports[i])
  {
    assert hospitals[..i + 1][..i] == hospitals[..i];
    assert reports[..i + 1][..i] == reports[..i];
  }

  /** Extending the ranking by one entry lets that entry replace the best so
      far only when it scores strictly higher. */
  lemma BestStep(cs: seq<Candidate>, k: int)
    requires 0 <= k < |cs|
    ensures Best(cs[..k + 1]) ==
            if Best(cs[..k]).None? || cs[k].score > Best(cs[..k]).value.score
            then Some(cs[k]) else Best(cs[..k])
  {
    assert cs[..k + 1][..k] == cs[..k];
  }

  /** What the selected hospital is: nothing exactly when no hospital is
      available, and otherwise the first best available hospital. */
  lemma SelectedHospital(hospitals: seq<Hospital>, reports: seq<Report>)
    requires |reports| == |hospitals|
    ensures var best := HospitalOf(SelectOptimal(hospitals, reports));
      (best.None? <==> forall i :: 0 <= i < |hospitals| ==> !reports[i].availability.available) &&
      (best.Some? ==> exists i :: IsFirstBest(hospitals, reports, i) && hospitals[i] == best.value)
  {
    SelectNoneIff(hospitals, reports);
    SelectIsFirstBest(hospitals, reports);
    if SelectOptimal(hospitals, reports).Some? {
      var c := SelectOptimal(hospitals, reports).value;
      assert IsFirstBest(hospitals, reports, c.position) && hospitals[c.position] == c.hospital;
    }
  }

  /** Hospital selection. The loop keeps the available hospitals with their
      clamped times and scores, in list order; the second loop takes the
      first entry a stable descending sort by score would put in front. */
  method SelectOptimalHospital(hospitals: seq<Hospital>, reports: seq<Report>)
    returns (best: Option<Hospital>)
    requires |reports| == |hospitals|
    ensures best == HospitalOf(SelectOptimal(hospitals, reports))
    ensures best.None? <==> forall i :: 0 <= i < |hospitals| ==> !reports[i].availability.available
    ensures best.Some? ==> exists i :: IsFirstBest(hospitals, reports, i) && hospitals[i] == best.value
  {
    var ranked: seq<Candidate> := [];
    for i := 0 to |hospitals|
      invariant ranked == Ranked(hospitals[..i], reports[..i])
    {
      RankedStep(hospitals, reports, i);
      if reports[i].availability.available {
        var travelTime := reports[i].traffic.travelTime;
        var waitTime := reports[i].availability.waitTime;
        if travelTime == 0 {
          travelTime := 1;
        }
        if waitTime == 0 {
          waitTime := 1;
        }
        var score := 0.7 * (1.0 / travelTime as real) + 0.3 * (1.0 / waitTime as real);
        assert score == ReportScore(reports[i]);
        ranked := ranked + [Candidate(hospitals[i], i, travelTime, score)];
      }
    }
    assert hospitals[..|hospitals|] == hospitals && reports[..|reports|] == reports;

    var top: Option<Candidate> := None;
    for k := 0 to |ranked|
      invariant top == Best(ranked[..k])
    {
      BestStep(ranked, k);
      if top.None? || ranked[k].score > top.value.score {
        top := Some(ranked[k]);
      }
    }
    assert ranked[..|ranked|] == ranked;

    SelectedHospital(hospitals, reports);
    if top.None? {
      best := None;
    } else {
      best := Some(top.value.hospital);
    }
  }

  // Two worked examples of the scoring rule.

  /** Hospital A (travel 10, wait 10) scores 0.1, hospital B (travel 5,
      wait 40) scores 0.1475, so B is selected. */
  lemma ShorterTravelWins(a: Hospital, b: Hospital)
    ensures var reports := [Report(HospitalAvailability(true, 10), TrafficAnalysis(10, 0.0)),
                            Report(HospitalAvailability(true, 40), TrafficAnalysis(5, 0.0))];
            ReportScore(reports[0]) == 0.1 && ReportScore(reports[1]) == 0.1475 &&
            HospitalOf(SelectOptimal([a, b], reports)) == Some(b)
  {
    var hs := [a, b];
    var reports := [Report(HospitalAvailability(true, 10), TrafficAnalysis(10, 0.0)),
                    Report(HospitalAvailability(true, 40), TrafficAnalysis(5, 0.0))];
    assert hs[..1] == [a];
    assert reports[..1] == [reports[0]];
    assert Ranked([a], [reports[0]]) == [Candidate(a, 0, 10, 0.1)];
    var cs := [Candidate(a, 0, 10, 0.1), Candidate(b, 1, 5, 0.1475)];
    assert Ranked(hs, reports) == cs;
    assert cs[..1] == [cs[0]];
    assert Best([cs[0]]) == Some(cs[0]);
  }

  /** Two available hospitals with zero travel and wait times: both are
      scored as if the times were 1, the scores tie, and the first wins. */
  lemma ZeroTimesTieFirstWins(a: Hospital, b: Hospital)
    ensures var reports := [Report(HospitalAvailability(true, 0), TrafficAnalysis(0, 0.0)),
                            Report(HospitalAvailability(true, 1), TrafficAnalysis(1, 0.0))];
            ReportScore(reports[0]) == ReportScore(reports[1]) == 1.0 &&
            HospitalOf(SelectOptimal([a, b], reports)) == Some(a)
  {
    var hs := [a, b];
    var reports := [Report(HospitalAvailability(true, 0), TrafficAnalysis(0, 0.0)),
                    Report(HospitalAvailability(true, 1), TrafficAnalysis(1, 0.0))];
    assert hs[..1] == [a];
    assert reports[..1] == [reports[0]];
    assert Ranked([a], [reports[0]]) == [Candidate(a, 0, 1, 1.0)];
    var cs := [Candidate(a, 0, 1, 1.0), Candidate(b, 1, 1, 1.0)];
    assert Ranked(hs, reports) == cs;
    assert cs[..1] == [cs[0]];
    assert Best([cs[0]]) == Some(cs[0]);
  }
}
