/** The dashboard's three derived metrics: the tactical-fit score of an athlete
    for every style, the training gaps against a style, and the head-to-head
    differential between a reference athlete and a candidate, with the colour
    class of each difference. Scores are read with `Value`, so a missing
    attribute counts as 0. */
module Metrics {
  import opened Taxonomy
  import opened Profiles

  /** The sum of an athlete's scores over a list of attributes, left to right. */
  function Sum(scores: Scores, attrs: seq<Attribute>): int
  {
    if attrs == [] then 0
    else Sum(scores, attrs[..|attrs| - 1]) + Value(scores, attrs[|attrs| - 1])
  }

  /** Every score an athlete holds lies in [0, 100]. */
  predicate InRange(scores: Scores)
  {
    forall a :: a in scores ==> 0 <= scores[a] <= 100
  }

  /** A sum of `|attrs|` scores in [0, 100] lies in [0, 100 * |attrs|]. */
  lemma {:induction false} SumBounds(scores: Scores, attrs: seq<Attribute>)
    requires InRange(scores)
    ensures 0 <= Sum(scores, attrs) <= 100 * |attrs|
  {
    if attrs != [] {
      SumBounds(scores, attrs[..|attrs| - 1]);
    }
  }

  /** `round(total / n, 1)` counted in tenths: the integer nearest to
      10 * total / n, the even one on a tie. */
  function RoundTenths(total: int, n: int): (t: int)
    requires n > 0
    ensures -n <= 2 * (10 * total - n * t) <= n
    ensures (2 * (10 * total - n * t) == n || 2 * (10 * total - n * t) == -n) ==> t % 2 == 0
  {
    var q, r := (10 * total) / n, (10 * total) % n;
    assert 10 * total == n * q + r && 0 <= r < n;
    assert n * (q + 1) == n * q + n;
    if 2 * r < n then q
    else if 2 * r > n then q + 1
    else if q % 2 == 0 then q
    else q + 1
  }

  /** When the mean has at most one decimal place the rounding is exact. */
  lemma RoundTenthsExact(total: int, n: int)
    requires n > 0 && (10 * total) % n == 0
    ensures RoundTenths(total, n) * n == 10 * total
  {
  }

  /** The rounded mean of `n` scores in [0, 100] lies in [0, 100] (in tenths,
      [0, 1000]). */
  lemma RoundTenthsBounds(total: int, n: int)
    requires n > 0 && 0 <= total <= 100 * n
    ensures 0 <= RoundTenths(total, n) <= 1000
  {
    var t := RoundTenths(total, n);
    assert n * (2 * t + 1) == 2 * (n * t) + n;
    assert n * (2 * t) == 2 * (n * t);
    if 2 * t + 1 < 0 {
      MulMonotone(n, 2 * t + 1, -1);
    }
    if 2 * t > 2001 {
      MulMonotone(n, 2002, 2 * t);
    }
  }

  /** Multiplying by a non-negative factor keeps the order. */
  lemma {:induction false} MulMonotone(n: int, a: int, b: int)
    requires n >= 0 && a <= b
    ensures n * a <= n * b
    decreases b - a
  {
    if a < b {
      MulMonotone(n, a, b - 1);
    }
  }

  /** The fit of an athlete for a list of attributes, in tenths of a point:
      the mean of the scores, the divisor being the list's length. */
  function FitTenths(scores: Scores, attrs: seq<Attribute>): int
    requires |attrs| > 0
  {
    RoundTenths(Sum(scores, attrs), |attrs|)
  }

  /** The fit score shown for one style. */
  datatype Fit = Fit(style: string, tenths: int)

  /** The fit of an athlete for every tactical style: one score per style, in
      table order. Each style has five attributes, so each score is the exact
      mean of the style's scores: ten times the sum, divided by five. */
  function TacticalFit(scores: Scores): (r: seq<Fit>)
    ensures |r| == |TacticalStyles|
    ensures forall i :: 0 <= i < |r| ==> r[i].style == TacticalStyles[i].name
    ensures forall i :: 0 <= i < |r| ==> 5 * r[i].tenths == 10 * Sum(scores, TacticalStyles[i].attributes)
  {
    StyleTableShape();
    FiveExact();
    seq(|TacticalStyles|, i requires 0 <= i < |TacticalStyles| =>
      Fit(TacticalStyles[i].name, FitTenths(scores, TacticalStyles[i].attributes)))
  }

  /** For five scores the rounding is exact. */
  lemma FiveExact()
    ensures forall total :: RoundTenths(total, 5) * 5 == 10 * total
  {
  }

  /** If every score lies in [0, 100], every fit lies in [0, 100]. */
  lemma TacticalFitBounded(scores: Scores)
    requires InRange(scores)
    ensures forall f :: f in TacticalFit(scores) ==> 0 <= f.tenths <= 1000
  {
    var r := TacticalFit(scores);
    StyleTableShape();
    forall i | 0 <= i < |r| ensures 0 <= r[i].tenths <= 1000 {
      var attrs := TacticalStyles[i].attributes;
      SumBounds(scores, attrs);
      RoundTenthsBounds(Sum(scores, attrs), |attrs|);
    }
  }

  /** Resistência 80, Agilidade 60, Divididas 40, Velocidade 100 and
      Interceptação 20 give a Gegenpressing fit of 60.0. */
  lemma GegenpressingExample()
    ensures TacticalFit(map["Resistência" := 80, "Agilidade" := 60, "Divididas" := 40,
                            "Velocidade" := 100, "Interceptação" := 20])[0]
         == Fit("Gegenpressing (Pressão)", 600)
  {
    var scores := map["Resistência" := 80, "Agilidade" := 60, "Divididas" := 40,
                      "Velocidade" := 100, "Interceptação" := 20];
    var attrs := TacticalStyles[0].attributes;
    assert attrs == ["Resistência", "Agilidade", "Divididas", "Velocidade", "Interceptação"];
    assert Value(scores, "Resistência") == 80 && Value(scores, "Agilidade") == 60;
    assert Value(scores, "Divididas") == 40 && Value(scores, "Velocidade") == 100;
    assert Value(scores, "Interceptação") == 20;
    assert Sum(scores, attrs[..1]) == 80 by { assert attrs[..1][..0] == []; }
    assert Sum(scores, attrs[..2]) == 140 by { assert attrs[..2][..1] == attrs[..1]; }
    assert Sum(scores, attrs[..3]) == 180 by { assert attrs[..3][..2] == attrs[..2]; }
    assert Sum(scores, attrs[..4]) == 280 by { assert attrs[..4][..3] == attrs[..3]; }
    assert Sum(scores, attrs) == 300 by { assert attrs[..4] == attrs[..|attrs| - 1]; }
  }

  /** Scores strictly below this are training gaps. */
  const GapThreshold := 80

  /** One training gap: an attribute and the athlete's current score. */
  datatype Gap = Gap(attribute: Attribute, value: int)

  /** The attributes of `attrs`, in order, whose score is below the threshold,
      each with its score. */
  function GapList(scores: Scores, attrs: seq<Attribute>): seq<Gap>
  {
    if attrs == [] then []
    else
      var init, a := attrs[..|attrs| - 1], attrs[|attrs| - 1];
      GapList(scores, init) + (if Value(scores, a) < GapThreshold then [Gap(a, Value(scores, a))] else [])
  }

  /** The gap list holds exactly the attributes of the style scoring below 80,
      each with its score: every attribute it leaves out scores at least 80. */
  lemma {:induction false} GapListCorrect(scores: Scores, attrs: seq<Attribute>)
    ensures |GapList(scores, attrs)| <= |attrs|
    ensures forall g :: g in GapList(scores, attrs) ==>
      g.attribute in attrs && g.value == Value(scores, g.attribute) && g.value < GapThreshold
    ensures forall a :: a in attrs ==> (Value(scores, a) < GapThreshold <==> Gap(a, Value(scores, a)) in GapList(scores, attrs))
  {
    if attrs != [] {
      var init, a := attrs[..|attrs| - 1], attrs[|attrs| - 1];
      assert attrs == init + [a];
      GapListCorrect(scores, init);
    }
  }

  /** The gaps of two lists in a row are the gaps of the first followed by
      those of the second: the gap list keeps the style's order. */
  lemma {:induction false} GapListAppend(scores: Scores, xs: seq<Attribute>, ys: seq<Attribute>)
    ensures GapList(scores, xs + ys) == GapList(scores, xs) + GapList(scores, ys)
  {
    if ys != [] {
      var init, y := ys[..|ys| - 1], ys[|ys| - 1];
      assert (xs + ys)[..|xs + ys| - 1] == xs + init;
      GapListAppend(scores, xs, init);
    } else {
      assert xs + ys == xs;
    }
  }

  /** Scanning one more attribute adds its gap, if it is one, at the end. */
  lemma GapListSnoc(scores: Scores, attrs: seq<Attribute>, a: Attribute)
    ensures GapList(scores, attrs + [a]) ==
      GapList(scores, attrs) + if Value(scores, a) < GapThreshold then [Gap(a, Value(scores, a))] else []
  {
  }

  /** Scores A = 90, B = 70 and C = 80 leave exactly one gap, B at 70: a score
      of exactly 80 is not a gap. */
  lemma GapExample()
    ensures GapList(map["A" := 90, "B" := 70, "C" := 80], ["A", "B", "C"]) == [Gap("B", 70)]
  {
    var scores: Scores := map["A" := 90, "B" := 70, "C" := 80];
    var attrs: seq<Attribute> := ["A", "B", "C"];
    assert Value(scores, "A") == 90 && Value(scores, "B") == 70 && Value(scores, "C") == 80;
    assert GapList(scores, attrs[..1]) == [] by { assert attrs[..1][..0] == []; }
    assert GapList(scores, attrs[..2]) == [Gap("B", 70)] by { assert attrs[..2][..1] == attrs[..1]; }
    assert attrs[..|attrs| - 1] == attrs[..2];
  }

  /** Lists the training gaps of an athlete against a style's attributes,
      scanning them in order. */
  method Gaps(scores: Scores, attrs: seq<Attribute>) returns (gaps: seq<Gap>)
    ensures gaps == GapList(scores, attrs)
  {
    gaps := [];
    var i := 0;
    while i < |attrs|
      invariant 0 <= i <= |attrs|
      invariant gaps == GapList(scores, attrs[..i])
    {
      var a := attrs[i];
      GapListSnoc(scores, attrs[..i], a);
      assert attrs[..i + 1] == attrs[..i] + [a];
      if Value(scores, a) < GapThreshold {
        gaps := gaps + [Gap(a, Value(scores, a))];
      }
      i := i + 1;
    }
    assert attrs[..|attrs|] == attrs;
  }

  /** One row of the differential table. */
  datatype DiffRow = DiffRow(attribute: Attribute, reference: int, candidate: int, difference: int)

  /** The differential over `attrs`: one row per attribute, in order, with the
      reference's and the candidate's scores and the candidate's lead. */
  function DiffRows(reference: Scores, candidate: Scores, attrs: seq<Attribute>): (r: seq<DiffRow>)
    ensures |r| == |attrs|
    ensures forall i :: 0 <= i < |attrs| ==>
      && r[i].attribute == attrs[i]
      && r[i].reference == Value(reference, attrs[i])
      && r[i].candidate == Value(candidate, attrs[i])
      && r[i].candidate == r[i].reference + r[i].difference
  {
    if attrs == [] then []
    else
      var init, a := attrs[..|attrs| - 1], attrs[|attrs| - 1];
      DiffRows(reference, candidate, init) + [DiffRow(a, Value(reference, a), Value(candidate, a), Value(candidate, a) - Value(reference, a))]
  }

  /** Builds the differential between a reference athlete and a candidate over
      the primary attributes of the reference's position. */
  method Differential(reference: Profile, candidate: Profile) returns (rows: seq<DiffRow>)
    ensures rows == DiffRows(reference.attributes, candidate.attributes, PositionAttributes(reference.position))
    ensures |rows| == 6
  {
    var attrs := PositionAttributes(reference.position);
    PositionTableShape(reference.position);
    rows := [];
    var i := 0;
    while i < |attrs|
      invariant 0 <= i <= |attrs|
      invariant rows == DiffRows(reference.attributes, candidate.attributes, attrs[..i])
    {
      assert attrs[..i + 1][..i] == attrs[..i];
      var a := attrs[i];
      var diff := Value(candidate.attributes, a) - Value(reference.attributes, a);
      rows := rows + [DiffRow(a, Value(reference.attributes, a), Value(candidate.attributes, a), diff)];
      i := i + 1;
    }
    assert attrs[..|attrs|] == attrs;
  }

  /** Swapping reference and candidate negates every difference. */
  lemma DiffRowsAntisymmetric(x: Scores, y: Scores, attrs: seq<Attribute>)
    ensures forall i :: 0 <= i < |attrs| ==>
      DiffRows(y, x, attrs)[i].difference == -DiffRows(x, y, attrs)[i].difference
  {
  }

  /** The colour class of a difference, as the table styles it: positive is
      green, negative red, zero white. */
  function ColorDiff(d: int): (css: string)
    ensures css == "color: green" <==> d > 0
    ensures css == "color: red" <==> d < 0
    ensures css == "color: white" <==> d == 0
  {
    var color := if d > 0 then "green" else if d < 0 then "red" else "white";
    assert "color: " + "green" == "color: green";
    assert "color: " + "red" == "color: red";
    assert "color: " + "white" == "color: white";
    "color: " + color
  }

  /** Comparing an athlete with itself gives a zero, white difference on
      every attribute. */
  lemma SelfComparison(p: Profile, attrs: seq<Attribute>)
    ensures forall row :: row in DiffRows(p.attributes, p.attributes, attrs) ==>
      row.difference == 0 && ColorDiff(row.difference) == "color: white"
  {
  }

  /** A reference at 50 and a candidate at 30 differ by -20; two equal
      scores by 0. */
  lemma DifferentialExample()
    ensures DiffRows(map["Passe" := 50], map["Passe" := 30], ["Passe"])[0].difference == -20
    ensures DiffRows(map["Passe" := 50], map["Passe" := 50], ["Passe"])[0].difference == 0
  {
  }
}
