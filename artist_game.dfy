/**
 The judging rule and the pair-selection rule of the higher-or-lower artist game
 (app.py). The artist table the web app loads from its CSV file is an input value
 here: a sequence of rows, each an artist name and a monthly-listener count. Both
 operations only read the table.
 */
module ArtistGame {

  datatype Option<T> = None | Some(value: T)

  /** One row of the table: the `Artist` and `MonthlyListeners` columns. */
  datatype Artist = Artist(name: string, listeners: int)

  /** The table, in row order. Names need not be unique. */
  type Table = seq<Artist>

  /** What a guess is judged to be. */
  datatype Verdict = Error | Win | Lose

  /** What the guess page is rendered with: the verdict, both names and both counts. */
  datatype Outcome = Outcome(result: Verdict, chosen: string, other: string,
                             chosenListeners: int, otherListeners: int)

  // ---------------------------------------------------------------------------
  // Reference definitions of name lookup

  /** Some row of the table carries exactly this name (case-sensitive). */
  ghost predicate Listed(t: Table, name: string) {
    exists i :: 0 <= i < |t| && t[i].name == name
  }

  /** Row i is the first row of the table that carries this name. */
  ghost predicate IsFirstMatch(t: Table, name: string, i: nat) {
    && i < |t|
    && t[i].name == name
    && forall j :: 0 <= j < i ==> t[j].name != name
  }

  // ---------------------------------------------------------------------------
  // Lookup

  /** Position of the first row with this name, if any. */
  function FindFirst(t: Table, name: string): (r: Option<nat>)
    ensures r.None? <==> !Listed(t, name)
    ensures r.Some? ==> IsFirstMatch(t, name, r.value)
    decreases |t|
  {
    if |t| == 0 then None
    else if t[0].name == name then Some(0)
    else
      match FindFirst(t[1..], name)
      case None =>
        assert forall i :: 1 <= i < |t| ==> t[i] == t[1..][i - 1];
        None
      case Some(k) =>
        assert forall j :: 1 <= j < k + 1 ==> t[j] == t[1..][j - 1];
        Some(k + 1)
  }

  /** The first matching row decides; computed for names known to be listed. */
  function FirstListeners(t: Table, name: string): (n: int)
    requires Listed(t, name)
    ensures forall i: nat :: IsFirstMatch(t, name, i) ==> n == t[i].listeners
  {
    var k := FindFirst(t, name);
    FirstMatchUnique(t, name, k.value);
    t[k.value].listeners
  }

  /** There is at most one first match. */
  lemma FirstMatchUnique(t: Table, name: string, k: nat)
    requires IsFirstMatch(t, name, k)
    ensures forall i: nat :: IsFirstMatch(t, name, i) ==> i == k
  {
  }

  /** A listed name always has a first match. */
  lemma {:induction false} ListedHasFirstMatch(t: Table, name: string)
    requires Listed(t, name)
    ensures exists i :: IsFirstMatch(t, name, i)
  {
    var i :| 0 <= i < |t| && t[i].name == name;
    if j :| 0 <= j < i && t[j].name == name {
      ListedHasFirstMatch(t[..i], name);
      var k :| IsFirstMatch(t[..i], name, k);
      assert IsFirstMatch(t, name, k);
    } else {
      assert IsFirstMatch(t, name, i);
    }
  }

  /** Rows after the first match of a name never change where that name is found. */
  lemma {:induction false} FindFirstExtend(t: Table, u: Table, name: string)
    requires Listed(t, name)
    ensures FindFirst(t + u, name) == FindFirst(t, name)
  {
    if t[0].name != name {
      assert (t + u)[1..] == t[1..] + u;
      var i :| 0 <= i < |t| && t[i].name == name;
      assert t[1..][i - 1].name == name;
      FindFirstExtend(t[1..], u, name);
    }
  }

  /** Appending rows keeps every listed name listed. */
  lemma ListedExtend(t: Table, u: Table, name: string)
    requires Listed(t, name)
    ensures Listed(t + u, name)
  {
    var i :| 0 <= i < |t| && t[i].name == name;
    assert (t + u)[i] == t[i];
  }

  // ---------------------------------------------------------------------------
  // Judging a guess

  /**
   The guess handler: an error with both counts 0 when the table is empty or
   either name is absent; otherwise each name takes the count of its first row,
   and the guess wins exactly when the chosen count is strictly greater.
   */
  function Judge(t: Table, chosen: string, other: string): (o: Outcome)
    ensures o.chosen == chosen && o.other == other
    // the handler's separate empty-table test; also implied by the next clause
    ensures |t| == 0 ==> o.result == Error
    ensures o.result == Error <==> !Listed(t, chosen) || !Listed(t, other)
    ensures o.result == Error ==> o.chosenListeners == 0 && o.otherListeners == 0
    ensures forall i: nat :: o.result != Error && IsFirstMatch(t, chosen, i) ==> o.chosenListeners == t[i].listeners
    ensures forall k: nat :: o.result != Error && IsFirstMatch(t, other, k) ==> o.otherListeners == t[k].listeners
    ensures o.result == Win <==> o.result != Error && o.chosenListeners > o.otherListeners
    ensures o.result == Lose <==> o.result != Error && o.chosenListeners <= o.otherListeners
  {
    if |t| == 0 || FindFirst(t, chosen).None? || FindFirst(t, other).None? then
      Outcome(Error, chosen, other, 0, 0)
    else
      var c := FirstListeners(t, chosen);
      var d := FirstListeners(t, other);
      Outcome(if c > d then Win else Lose, chosen, other, c, d)
  }

  /** Guessing an artist against itself never wins: ties count as a loss. */
  lemma SelfGuessNeverWins(t: Table, name: string)
    ensures Judge(t, name, name).result != Win
    ensures Listed(t, name) ==> Judge(t, name, name).result == Lose
  {
  }

  /** Equal resolved counts give a loss, whichever names they belong to. */
  lemma TieLoses(t: Table, chosen: string, other: string, i: nat, k: nat)
    requires IsFirstMatch(t, chosen, i) && IsFirstMatch(t, other, k)
    requires t[i].listeners == t[k].listeners
    ensures Judge(t, chosen, other).result == Lose
  {
  }

  /**
   Swapping the two names swaps the reported counts, and a winning guess,
   swapped, loses: at most one order of a pair can win.
   */
  lemma JudgeSwap(t: Table, a: string, b: string)
    ensures Judge(t, a, b).result == Error <==> Judge(t, b, a).result == Error
    ensures Judge(t, a, b).chosenListeners == Judge(t, b, a).otherListeners
    ensures Judge(t, a, b).otherListeners == Judge(t, b, a).chosenListeners
    ensures Judge(t, a, b).result == Win ==> Judge(t, b, a).result == Lose
  {
  }

  /**
   First-match semantics: once both names resolve, appending rows to the table
   (duplicates of those names included) leaves the outcome as it was.
   */
  lemma JudgeExtend(t: Table, u: Table, chosen: string, other: string)
    requires Judge(t, chosen, other).result != Error
    ensures Judge(t + u, chosen, other) == Judge(t, chosen, other)
  {
    ListedExtend(t, u, chosen);
    ListedExtend(t, u, other);
    FindFirstExtend(t, u, chosen);
    FindFirstExtend(t, u, other);
    var i := FindFirst(t, chosen).value;
    var k := FindFirst(t, other).value;
    assert (t + u)[i] == t[i] && (t + u)[k] == t[k];
  }

  // ---------------------------------------------------------------------------
  // Picking a pair of artists

  /** The two rows shown when there is not enough data. */
  const Placeholders: seq<Artist> :=
    [Artist("Nav pieejamu datu", 0), Artist("Lūdzu augšupielādējiet CSV", 0)]

  /** A draw of two rows without replacement: two distinct positions of the table. */
  predicate ValidDraw(t: Table, i: nat, j: nat) {
    i < |t| && j < |t| && i != j
  }

  /**
   The pair shown on the landing page, given the sampler's draw (i, j). With
   fewer than two rows the draw is ignored and the placeholders come back.
   */
  function RandomArtists(t: Table, i: nat, j: nat): (r: seq<Artist>)
    requires |t| >= 2 ==> ValidDraw(t, i, j)
    ensures |r| == 2
    ensures |t| < 2 ==> r == Placeholders
    ensures |t| >= 2 ==> r[0] in t && r[1] in t && multiset(r) <= multiset(t)
  {
    if |t| == 0 || |t| < 2 then Placeholders
    else
      DrawIsSubMultiset(t, i, j);
      [t[i], t[j]]
  }

  /** Two rows at distinct positions are, together, a part of the table. */
  lemma DrawIsSubMultiset(t: Table, i: nat, j: nat)
    requires ValidDraw(t, i, j)
    ensures multiset([t[i], t[j]]) <= multiset(t)
  {
    var lo, hi := if i < j then i else j, if i < j then j else i;
    assert t == t[..hi] + t[hi..];
    assert t[..hi][lo] == t[lo] && t[hi..][0] == t[hi];
    assert multiset([t[i], t[j]]) == multiset{t[lo]} + multiset{t[hi]};
  }

  /** Both placeholder rows report zero listeners. */
  lemma PlaceholdersHaveNoListeners(t: Table, i: nat, j: nat)
    requires |t| < 2
    ensures forall a :: a in RandomArtists(t, i, j) ==> a.listeners == 0
  {
  }

  /** The sampler: two distinct positions, chosen arbitrarily. */
  method DrawRandomArtists(t: Table) returns (r: seq<Artist>)
    ensures |r| == 2
    ensures |t| < 2 ==> r == Placeholders
    ensures |t| >= 2 ==> exists i: nat, j: nat :: ValidDraw(t, i, j) && r == [t[i], t[j]]
  {
    if |t| < 2 {
      r := RandomArtists(t, 0, 0);
    } else {
      assert ValidDraw(t, 0, 1);
      var i: nat, j: nat :| ValidDraw(t, i, j);
      r := RandomArtists(t, i, j);
    }
  }

  // ---------------------------------------------------------------------------
  // Selection and judging together

  /** A guess on a drawn pair, one name against the other, always resolves. */
  lemma DrawnPairResolves(t: Table, i: nat, j: nat)
    requires ValidDraw(t, i, j)
    ensures Judge(t, RandomArtists(t, i, j)[0].name, RandomArtists(t, i, j)[1].name).result != Error
  {
  }

  /** All names in the table are different. */
  ghost predicate UniqueNames(t: Table) {
    forall i, j :: 0 <= i < j < |t| ==> t[i].name != t[j].name
  }

  /**
   With unique names, a guess on a drawn pair is judged on the counts shown
   with that pair: it wins exactly when the first shown count is larger.
   */
  lemma DrawnPairJudgedOnShownCounts(t: Table, i: nat, j: nat)
    requires ValidDraw(t, i, j) && UniqueNames(t)
    ensures var p := RandomArtists(t, i, j);
            var o := Judge(t, p[0].name, p[1].name);
            o.chosenListeners == p[0].listeners && o.otherListeners == p[1].listeners
            && (o.result == Win <==> p[0].listeners > p[1].listeners)
  {
  }

  /**
   When a name repeats, the count shown with a drawn row may come from a later
   duplicate, but the guess is judged on the first row with that name.
   */
  lemma DuplicateNameJudgedOnFirstRow()
    ensures var t := [Artist("A", 10), Artist("A", 99), Artist("B", 50)];
            var p := RandomArtists(t, 1, 2);
            && p == [Artist("A", 99), Artist("B", 50)]
            && p[0].listeners > p[1].listeners
            && Judge(t, p[0].name, p[1].name) == Outcome(Lose, "A", "B", 10, 50)
  {
  }

  /** On the empty table every guess is an error, the placeholder names included. */
  lemma EmptyTableGuessIsError(chosen: string, other: string)
    ensures Judge([], chosen, other) == Outcome(Error, chosen, other, 0, 0)
  {
  }

  /** The example pool of two artists with 100 and 50 listeners. */
  lemma TwoArtistExample()
    ensures var t := [Artist("A", 100), Artist("B", 50)];
            && Judge(t, "A", "B") == Outcome(Win, "A", "B", 100, 50)
            && Judge(t, "B", "A") == Outcome(Lose, "B", "A", 50, 100)
            && Judge(t, "Z", "A").result == Error
  {
  }
}
