/** The holiday banner: a fixed list of dated celebrations, the rule that
    picks today's, and the falling emoji particles drawn for it. Today's date
    and the random draws are parameters; banner colours and timers are left out. */
module Celebrations {
  import opened Types

  datatype Celebration = Celebration(name: string, month: int, day: int, emoji: string, message: string)

  /** The list, in the order it is searched. */
  const All: seq<Celebration> := [
    Celebration("New Year", 1, 1, "\U{1F389}", "Happy New Year!"),
    Celebration("Australia Day", 1, 26, "\U{1F1E6}\U{1F1FA}", "Happy Australia Day!"),
    Celebration("Valentine's Day", 2, 14, "\U{2764}\U{FE0F}", "Happy Valentine's Day!"),
    Celebration("Easter", 4, 20, "\U{1F430}", "Happy Easter!"),
    Celebration("ANZAC Day", 4, 25, "\U{1F33A}", "Lest We Forget"),
    Celebration("Mother's Day", 5, 12, "\U{1F490}", "Happy Mother's Day!"),
    Celebration("Father's Day", 9, 1, "\U{1F454}", "Happy Father's Day!"),
    Celebration("Halloween", 10, 31, "\U{1F383}", "Happy Halloween!"),
    Celebration("Christmas", 12, 25, "\U{1F384}", "Merry Christmas!"),
    Celebration("Boxing Day", 12, 26, "\U{1F381}", "Happy Boxing Day!")
  ]

  /** A celebration is on for the day before, the day itself and the day after,
      all within its own month: the day numbers are compared, not dates. */
  predicate Matches(c: Celebration, month: int, day: int)
  {
    c.month == month && (c.day == day || c.day == day - 1 || c.day == day + 1)
  }

  /** `find`: the position of the first celebration that matches. */
  function FindIndex(list: seq<Celebration>, month: int, day: int): (k: Option<nat>)
    ensures k.Some? ==> k.value < |list| && Matches(list[k.value], month, day)
    ensures k.Some? ==> forall j :: 0 <= j < k.value ==> !Matches(list[j], month, day)
    ensures k.None? <==> forall j :: 0 <= j < |list| ==> !Matches(list[j], month, day)
  {
    if list == [] then None
    else if Matches(list[0], month, day) then Some(0)
    else
      match FindIndex(list[1..], month, day)
      case None => None
      case Some(j) => Some(j + 1)
  }

  function Today(month: int, day: int): Option<Celebration>
  {
    match FindIndex(All, month, day)
    case None => None
    case Some(k) => Some(All[k])
  }

  /** Matching means the same month and a day number at most one away. */
  lemma MatchesWithinOneDay(c: Celebration, month: int, day: int)
    ensures Matches(c, month, day) <==> c.month == month && -1 <= c.day - day <= 1
  {
  }

  /** The first-match contract pins the result down: the position of a
      match that nothing before it matches. */
  lemma FirstMatch(list: seq<Celebration>, month: int, day: int, k: nat)
    requires k < |list| && Matches(list[k], month, day)
    requires forall j :: 0 <= j < k ==> !Matches(list[j], month, day)
    ensures FindIndex(list, month, day) == Some(k)
  {
  }

  lemma ListPositions()
    ensures All[7].name == "Halloween" && All[8].name == "Christmas" && All[9].name == "Boxing Day"
  {
  }

  /** From 24 to 26 December Christmas is on; on the 26th Boxing Day would
      match too, but Christmas comes first in the list and wins. On the 27th
      only Boxing Day is left. */
  lemma ChristmasBeforeBoxingDay(month: int, day: int)
    requires month == 12 && 24 <= day <= 27
    ensures day <= 26 ==> Today(month, day) == Some(All[8])
    ensures day == 27 ==> Today(month, day) == Some(All[9])
  {
    if day <= 26 {
      FirstMatch(All, month, day, 8);
    } else {
      FirstMatch(All, month, day, 9);
    }
  }

  /** The day buffer does not reach into a neighbouring month: nothing is on
      in November, although Halloween is on 31 October, nor in the last days
      of December, although New Year is on 1 January. */
  lemma NoMatchAcrossMonths(month: int, day: int)
    ensures month == 11 ==> Today(month, day).None?
    ensures month == 12 && day >= 28 ==> Today(month, day).None?
    ensures month == 10 && 30 <= day <= 32 ==> Today(month, day) == Some(All[7])
  {
    if month == 10 && 30 <= day <= 32 {
      FirstMatch(All, month, day, 7);
    }
  }

  // ---------------------------------------------------------------- particles

  datatype Particle = Particle(id: int, x: real, emoji: string, delay: real, duration: real)

  /** Three draws in [0, 1) per particle, as `Math.random` returns them. */
  predicate Draws(random: seq<real>)
  {
    |random| == 45 && forall i :: 0 <= i < |random| ==> 0.0 <= random[i] < 1.0
  }

  /** Fifteen particles numbered 0 to 14, each with the celebration's emoji, a
      horizontal position in [0, 100), a delay in [0, 5) and a fall time in [8, 14).
      The bounds are over exact reals: in double precision a draw just below 1
      can round the fall time up to exactly 14 and the position to exactly 100. */
  method GenerateParticles(c: Celebration, random: seq<real>) returns (particles: seq<Particle>)
    requires Draws(random)
    ensures |particles| == 15
    ensures forall i :: 0 <= i < |particles| ==> particles[i].id == i && particles[i].emoji == c.emoji
    ensures forall i :: 0 <= i < |particles| ==>
      && 0.0 <= particles[i].x < 100.0
      && 0.0 <= particles[i].delay < 5.0
      && 8.0 <= particles[i].duration < 14.0
  {
    particles := [];
    var i := 0;
    while i < 15
      invariant 0 <= i <= 15 && |particles| == i
      invariant forall j :: 0 <= j < i ==> particles[j].id == j && particles[j].emoji == c.emoji
      invariant forall j :: 0 <= j < i ==>
        && 0.0 <= particles[j].x < 100.0
        && 0.0 <= particles[j].delay < 5.0
        && 8.0 <= particles[j].duration < 14.0
    {
      var x := random[3 * i] * 100.0;
      var delay := random[3 * i + 1] * 5.0;
      var duration := 8.0 + random[3 * i + 2] * 6.0;
      particles := particles + [Particle(i, x, c.emoji, delay, duration)];
      i := i + 1;
    }
  }

  /** What the effect shows on a given day: nothing at all without a
      celebration, otherwise the celebration and its fifteen particles. */
  method Show(month: int, day: int, random: seq<real>) returns (shown: Option<Celebration>, particles: seq<Particle>)
    requires Draws(random)
    ensures shown == Today(month, day)
    ensures shown.None? ==> particles == []
    ensures shown.Some? ==> |particles| == 15
    ensures shown.Some? ==> forall i :: 0 <= i < |particles| ==>
      particles[i].id == i && particles[i].emoji == shown.value.emoji
  {
    shown := Today(month, day);
    particles := [];
    if shown.Some? {
      particles := GenerateParticles(shown.value, random);
    }
  }
}
