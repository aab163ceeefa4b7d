/** The rotating window of mutation groups that consecutive repair attempts work through. */
module RepairWindow {
  import opened Ordering

  function WindowSize(groups: nat, perRound: int): (size: nat)
    requires groups > 0
    ensures 1 <= size <= groups
  {
    var wanted := if perRound == 0 then 1 else perRound;
    var capped := if wanted < groups then wanted else groups;
    if capped < 1 then 1 else capped
  }

  function WindowStart(groups: nat, attempt: int, perRound: int): nat
    requires groups > 0
  {
    (if attempt < 1 then 0 else attempt - 1) * WindowSize(groups, perRound)
  }

  /** The positions that attempt `attempt` works on; attempts below 1 count as the first. */
  function Window(groups: nat, attempt: int, perRound: int): (r: seq<nat>)
    requires groups > 0
    ensures |r| == WindowSize(groups, perRound)
    ensures forall j :: 0 <= j < |r| ==> r[j] < groups
  {
    var size, start := WindowSize(groups, perRound), WindowStart(groups, attempt, perRound);
    seq(size, offset requires 0 <= offset < size => (start + offset) % groups)
  }

  /** `select_mutation_repair_groups`. */
  function SelectGroups<T>(ordered: seq<T>, attempt: int, perRound: int): (r: seq<T>)
    ensures |r| == if ordered == [] then 0 else WindowSize(|ordered|, perRound)
    ensures forall g :: g in r ==> g in ordered
  {
    if ordered == [] then []
    else
      var w := Window(|ordered|, attempt, perRound);
      seq(|w|, j requires 0 <= j < |w| => ordered[w[j]])
  }

  lemma SmallMod(j: nat, n: nat)
    requires j < n
    ensures (0 + j) % n == j
  {
  }

  /** An attempt selects the wished number of groups, at least one and at most all, and the first attempt, like
      any number below it, the first ones. */
  lemma SelectionLength<T>(ordered: seq<T>, attempt: int, perRound: int)
    requires ordered != []
    ensures perRound >= 1 ==>
      |SelectGroups(ordered, attempt, perRound)| == if perRound < |ordered| then perRound else |ordered|
    ensures perRound <= 0 ==> |SelectGroups(ordered, attempt, perRound)| == 1
    ensures attempt <= 1 ==> SelectGroups(ordered, attempt, perRound) <= ordered
  {
    if attempt <= 1 {
      var selected := SelectGroups(ordered, attempt, perRound);
      assert WindowStart(|ordered|, attempt, perRound) == 0;
      forall j | 0 <= j < |selected| ensures selected[j] == ordered[j] { SmallMod(j, |ordered|); }
    }
  }

  /** No multiple of `n` lies strictly between 0 and `n`. */
  lemma NoMultipleBetween(d: int, n: nat)
    ensures d * n <= 0 || d * n >= n
  {
    if d >= 1 { assert d * n == n + (d - 1) * n && (d - 1) * n >= 0; }
    if d < 0 { assert (-d) * n >= 0; }
  }

  lemma DivMod(a: nat, n: nat)
    requires n > 0
    ensures a == (a / n) * n + a % n
  {
  }

  lemma ModDiffers(a: nat, b: nat, n: nat)
    requires a < b && b - a < n
    ensures a % n != b % n
  {
    DivMod(a, n);
    DivMod(b, n);
    var d := b / n - a / n;
    assert d * n == (b / n) * n - (a / n) * n;
    NoMultipleBetween(d, n);
  }

  /** The positions of one window are distinct. */
  lemma WindowDistinct(groups: nat, attempt: int, perRound: int)
    requires groups > 0
    ensures Distinct(Window(groups, attempt, perRound))
  {
    hide WindowSize, WindowStart;
    var w, start := Window(groups, attempt, perRound), WindowStart(groups, attempt, perRound);
    forall i, j | 0 <= i < j < |w| ensures w[i] != w[j] { ModDiffers(start + i, start + j, groups); }
  }

  /** The groups of one attempt are distinct. */
  lemma SelectionDistinct<T>(ordered: seq<T>, attempt: int, perRound: int)
    requires Distinct(ordered)
    ensures Distinct(SelectGroups(ordered, attempt, perRound))
  {
    if ordered != [] {
      WindowDistinct(|ordered|, attempt, perRound);
      hide Window, WindowSize;
    }
  }

  // ---- fairness, by positions ----

  function Count(s: seq<nat>, g: nat): nat {
    if s == [] then 0 else Count(s[..|s| - 1], g) + (if s[|s| - 1] == g then 1 else 0)
  }

  lemma {:induction false} CountConcat(a: seq<nat>, b: seq<nat>, g: nat)
    ensures Count(a + b, g) == Count(a, g) + Count(b, g)
    decreases |b|
  {
    if b == [] {
      assert a + b == a;
    } else {
      assert (a + b)[..|a + b| - 1] == a + b[..|b| - 1];
      CountConcat(a, b[..|b| - 1], g);
    }
  }

  /** Everything the first `attempts` attempts select, in order. */
  function Selections(groups: nat, attempts: nat, perRound: int): seq<nat>
    requires groups > 0
  {
    if attempts == 0 then [] else Selections(groups, attempts - 1, perRound) + Window(groups, attempts, perRound)
  }

  /** 0, 1, 2, ... modulo the number of groups. */
  function Rotation(groups: nat, length: nat): (r: seq<nat>)
    requires groups > 0
    ensures |r| == length && forall j :: 0 <= j < length ==> r[j] == j % groups
  {
    seq(length, j requires 0 <= j < length => j % groups)
  }

  lemma CoveredStep(groups: nat, attempts: nat, perRound: int)
    requires groups > 0
    ensures Covered(groups, 0, perRound) == 0
    ensures attempts > 0 ==>
      Covered(groups, attempts, perRound) == Covered(groups, attempts - 1, perRound) + WindowSize(groups, perRound)
  {
    var size := WindowSize(groups, perRound);
    assert attempts * size == (attempts - 1) * size + size;
  }

  lemma RotationGrows(groups: nat, attempt: nat, perRound: int)
    requires groups > 0 && attempt > 0
    ensures Rotation(groups, Covered(groups, attempt, perRound))
         == Rotation(groups, Covered(groups, attempt - 1, perRound)) + Window(groups, attempt, perRound)
  {
    CoveredStep(groups, attempt, perRound);
    var start := Covered(groups, attempt - 1, perRound);
    assert forall j ::
      0 <= j < WindowSize(groups, perRound) ==> Window(groups, attempt, perRound)[j] == (start + j) % groups;
    hide Covered, WindowSize, Window;
  }

  /** The windows are consecutive stretches of one endless rotation. */
  lemma {:induction false} SelectionsRotate(groups: nat, attempts: nat, perRound: int)
    requires groups > 0
    ensures Selections(groups, attempts, perRound) == Rotation(groups, Covered(groups, attempts, perRound))
  {
    hide Window, Rotation, Covered;
    CoveredStep(groups, attempts, perRound);
    if attempts > 0 {
      SelectionsRotate(groups, attempts - 1, perRound);
      RotationGrows(groups, attempts, perRound);
    }
  }

  /** How far the first attempts get along the rotation. */
  function Covered(groups: nat, attempts: nat, perRound: int): nat
    requires groups > 0
  {
    attempts * WindowSize(groups, perRound)
  }

  /** How often `g` occurs among the first `length` steps of the rotation. */
  function Turns(groups: nat, length: nat, g: nat): nat
    requires g < groups
  {
    length / groups + (if g < length % groups then 1 else 0)
  }

  lemma TurnsStep(groups: nat, length: nat, g: nat)
    requires g < groups
    ensures Turns(groups, length + 1, g) == Turns(groups, length, g) + (if length % groups == g then 1 else 0)
  {
    var q, r := length / groups, length % groups;
    assert length == q * groups + r;
    if r + 1 < groups {
      DivModIs(groups, q, r + 1);
    } else {
      assert length + 1 == (q + 1) * groups + 0;
      DivModIs(groups, q + 1, 0);
    }
  }

  lemma DivModIs(n: nat, q: nat, r: nat)
    requires r < n
    ensures (q * n + r) / n == q && (q * n + r) % n == r
  {
    var x := q * n + r;
    DivMod(x, n);
    var d := x / n - q;
    assert d * n == (x / n) * n - q * n == r - x % n;
    NoMultipleBetween(d, n);
    NoMultipleBetween(-d, n);
    assert (-d) * n == -(d * n);
    if d != 0 { NonZero(d, n); }
  }

  lemma NonZero(d: int, n: nat)
    requires d != 0 && n > 0
    ensures d * n != 0
  {
  }

  lemma {:induction false} RotationCount(groups: nat, length: nat, g: nat)
    requires g < groups
    ensures Count(Rotation(groups, length), g) == Turns(groups, length, g)
  {
    if length == 0 {
      DivModIs(groups, 0, 0);
    } else {
      RotationCount(groups, length - 1, g);
      assert Rotation(groups, length)[..length - 1] == Rotation(groups, length - 1);
      TurnsStep(groups, length - 1, g);
    }
  }

  /** How often the first attempts select a position. */
  lemma SelectionCount(groups: nat, attempts: nat, perRound: int, g: nat)
    requires g < groups
    ensures Count(Selections(groups, attempts, perRound), g) == Turns(groups, Covered(groups, attempts, perRound), g)
  {
    hide Turns, Covered, Rotation, Selections, Count;
    SelectionsRotate(groups, attempts, perRound);
    RotationCount(groups, Covered(groups, attempts, perRound), g);
  }

  lemma TurnsFair(groups: nat, length: nat, g: nat, h: nat)
    requires g < groups && h < groups
    ensures Turns(groups, length, g) <= Turns(groups, length, h) + 1
  {
  }

  lemma TurnsPositive(groups: nat, n: nat, g: nat)
    requires g < groups
    ensures Turns(groups, n, g) > 0 <==> g < n
  {
    if n < groups {
      DivModIs(groups, 0, n);
    } else {
      DivMod(n, groups);
    }
  }

  /** ceil(n / size). */
  function Ceiling(n: nat, size: nat): (rounds: nat)
    requires n > 0 && size > 0
    ensures rounds > 0 && (rounds - 1) * size < n <= rounds * size
  {
    var rounds := (n + size - 1) / size;
    CeilingCovers(n, size);
    rounds
  }

  lemma CeilingCovers(n: nat, size: nat)
    requires n > 0 && size > 0
    ensures var rounds := (n + size - 1) / size;
      rounds > 0 && rounds * size >= n && (rounds - 1) * size < n
  {
    var x := n + size - 1;
    DivMod(x, size);
    var rounds := x / size;
    assert (rounds - 1) * size == rounds * size - size;
  }

  // ---- fairness, by groups ----

  /** Everything the first attempts work on, in order. */
  function WorkedOn<T>(ordered: seq<T>, attempts: nat, perRound: int): seq<T> {
    if attempts == 0 then [] else WorkedOn(ordered, attempts - 1, perRound) + SelectGroups(ordered, attempts, perRound)
  }

  lemma {:induction false} WorkedOnPositions<T>(ordered: seq<T>, attempts: nat, perRound: int)
    requires ordered != []
    ensures |WorkedOn(ordered, attempts, perRound)| == |Selections(|ordered|, attempts, perRound)|
    ensures forall j :: 0 <= j < |WorkedOn(ordered, attempts, perRound)| ==>
      Selections(|ordered|, attempts, perRound)[j] < |ordered|
      && WorkedOn(ordered, attempts, perRound)[j] == ordered[Selections(|ordered|, attempts, perRound)[j]]
  {
    hide Window;
    if attempts > 0 { WorkedOnPositions(ordered, attempts - 1, perRound); }
  }

  /** The attempts work through the groups in their given order, round and round, without skipping or repeating any. */
  lemma GroupsRotate<T>(ordered: seq<T>, attempts: nat, perRound: int, j: nat)
    requires ordered != [] && j < Covered(|ordered|, attempts, perRound)
    ensures |WorkedOn(ordered, attempts, perRound)| == Covered(|ordered|, attempts, perRound)
    ensures WorkedOn(ordered, attempts, perRound)[j] == ordered[j % |ordered|]
  {
    hide WorkedOn, Selections, Covered, Rotation;
    SelectionsRotate(|ordered|, attempts, perRound);
    WorkedOnPositions(ordered, attempts, perRound);
  }

  /** In how many of the first attempts the group is selected. */
  function TimesSelected<T(==)>(ordered: seq<T>, attempts: nat, perRound: int, g: T): nat {
    if attempts == 0 then 0
    else TimesSelected(ordered, attempts - 1, perRound, g)
         + (if g in SelectGroups(ordered, attempts, perRound) then 1 else 0)
  }

  lemma {:induction false} CountDistinct(s: seq<nat>, g: nat)
    requires Distinct(s)
    ensures Count(s, g) == if g in s then 1 else 0
  {
    if s != [] {
      var front := s[..|s| - 1];
      CountDistinct(front, g);
      assert s == front + [s[|s| - 1]];
    }
  }

  /** A group is selected exactly when its position is in the window. */
  lemma SelectedAtPosition<T>(ordered: seq<T>, attempt: int, perRound: int, p: nat)
    requires Distinct(ordered) && p < |ordered|
    ensures ordered[p] in SelectGroups(ordered, attempt, perRound) <==> p in Window(|ordered|, attempt, perRound)
  {
    hide Window;
    var w, r := Window(|ordered|, attempt, perRound), SelectGroups(ordered, attempt, perRound);
    if p in w {
      var j :| 0 <= j < |w| && w[j] == p;
      assert r[j] == ordered[p];
    }
  }

  lemma {:induction false} TimesSelectedIs<T>(ordered: seq<T>, attempts: nat, perRound: int, p: nat)
    requires Distinct(ordered) && p < |ordered|
    ensures TimesSelected(ordered, attempts, perRound, ordered[p])
         == Turns(|ordered|, Covered(|ordered|, attempts, perRound), p)
  {
    hide Covered, Selections, Count, TimesSelected, Turns;
    TimesSelectedCount(ordered, attempts, perRound, p);
    SelectionCount(|ordered|, attempts, perRound, p);
  }

  lemma {:induction false} TimesSelectedCount<T>(ordered: seq<T>, attempts: nat, perRound: int, p: nat)
    requires Distinct(ordered) && p < |ordered|
    ensures TimesSelected(ordered, attempts, perRound, ordered[p])
         == Count(Selections(|ordered|, attempts, perRound), p)
  {
    hide WindowSize, Window, SelectGroups;
    if attempts > 0 {
      var w := Window(|ordered|, attempts, perRound);
      TimesSelectedCount(ordered, attempts - 1, perRound, p);
      CountConcat(Selections(|ordered|, attempts - 1, perRound), w, p);
      WindowDistinct(|ordered|, attempts, perRound);
      CountDistinct(w, p);
      SelectedAtPosition(ordered, attempts, perRound, p);
    }
  }

  /** After any number of attempts no group has been selected twice more often than another. */
  lemma SelectionIsFair<T>(ordered: seq<T>, attempts: nat, perRound: int, g: T, h: T)
    requires Distinct(ordered) && g in ordered && h in ordered
    ensures TimesSelected(ordered, attempts, perRound, g) <= TimesSelected(ordered, attempts, perRound, h) + 1
  {
    var p :| 0 <= p < |ordered| && ordered[p] == g;
    var q :| 0 <= q < |ordered| && ordered[q] == h;
    hide Covered, TimesSelected, Turns;
    TimesSelectedIs(ordered, attempts, perRound, p);
    TimesSelectedIs(ordered, attempts, perRound, q);
    TurnsFair(|ordered|, Covered(|ordered|, attempts, perRound), p, q);
  }

  /** A group has been selected exactly when its position lies within what the attempts cover. */
  lemma SelectedWhenCovered<T>(ordered: seq<T>, attempts: nat, perRound: int, p: nat)
    requires Distinct(ordered) && p < |ordered|
    ensures TimesSelected(ordered, attempts, perRound, ordered[p]) > 0 <==> p < Covered(|ordered|, attempts, perRound)
  {
    hide Covered, TimesSelected, Turns;
    TimesSelectedIs(ordered, attempts, perRound, p);
    TurnsPositive(|ordered|, Covered(|ordered|, attempts, perRound), p);
  }

  lemma EverySelected<T>(ordered: seq<T>, rounds: nat, perRound: int, g: T)
    requires Distinct(ordered) && g in ordered && |ordered| <= Covered(|ordered|, rounds, perRound)
    ensures TimesSelected(ordered, rounds, perRound, g) > 0
  {
    hide Covered, TimesSelected;
    var p :| 0 <= p < |ordered| && ordered[p] == g;
    SelectedWhenCovered(ordered, rounds, perRound, p);
  }

  /** Every group is among those selected by the first ceil(n / size) attempts, and the last one not any earlier. */
  lemma AllSelectedInTime<T>(ordered: seq<T>, perRound: int)
    requires Distinct(ordered) && ordered != []
    ensures var rounds := Ceiling(|ordered|, WindowSize(|ordered|, perRound));
      && (forall g :: g in ordered ==> TimesSelected(ordered, rounds, perRound, g) > 0)
      && TimesSelected(ordered, rounds - 1, perRound, ordered[|ordered| - 1]) == 0
  {
    hide TimesSelected, Ceiling, WindowSize;
    var rounds := Ceiling(|ordered|, WindowSize(|ordered|, perRound));
    forall g | g in ordered ensures TimesSelected(ordered, rounds, perRound, g) > 0 {
      EverySelected(ordered, rounds, perRound, g);
    }
    SelectedWhenCovered(ordered, rounds - 1, perRound, |ordered| - 1);
  }

  /** What the count stands for. */
  lemma {:induction false} TimesSelectedMeans<T>(ordered: seq<T>, attempts: nat, perRound: int, g: T)
    ensures TimesSelected(ordered, attempts, perRound, g) > 0
       <==> exists k :: 1 <= k <= attempts && g in SelectGroups(ordered, k, perRound)
  {
    hide SelectGroups;
    if attempts > 0 { TimesSelectedMeans(ordered, attempts - 1, perRound, g); }
  }
}
