/**
 * The team carousel of the About Us page: how many cards fit the window
 * width, how the start index advances on every timer tick, and which
 * members are shown, wrapping around the end of the list.
 */
module TeamCarousel {

  /** One card of the team section; every social link on the page is `#`. */
  datatype TeamMember = TeamMember(src: string, alt: string, name: string, position: string)

  /** `teamMembers`: the page lists the same two people twice. */
  const TeamMembers := [
    TeamMember("/path-to-team-photo3.jpg", "Team Member 3", "John Doe", "Developer"),
    TeamMember("/path-to-team-photo4.jpg", "Team Member 4", "Jane Smith", "UI/UX Designer"),
    TeamMember("/path-to-team-photo3.jpg", "Team Member 3", "John Doe", "Developer"),
    TeamMember("/path-to-team-photo4.jpg", "Team Member 4", "Jane Smith", "UI/UX Designer")]

  const TeamSize := 4

  /** `updateCardsPerView`: one card on a phone, two on a tablet, three on a desktop. */
  function CardsPerView(width: int): (k: int)
    ensures 1 <= k <= 3
    ensures k == 1 <==> width < 640
    ensures k == 2 <==> 640 <= width < 1024
    ensures k == 3 <==> width >= 1024
  {
    if width < 640 then 1 else if width < 1024 then 2 else 3
  }

  /** Wider windows never show fewer cards. */
  lemma CardsPerViewMonotonic(w1: int, w2: int)
    requires w1 <= w2
    ensures CardsPerView(w1) <= CardsPerView(w2)
  {
  }

  /** `x % n` for `0 <= x < 2n`: at most one wrap past the end. */
  lemma ModOnce(x: int, n: int)
    requires n > 0 && 0 <= x < 2 * n
    ensures x % n == if x < n then x else x - n
  {
    var q, r := x / n, x % n;
    assert x == q * n + r && 0 <= r < n;
    if x < n {
      assert q * n < n;
      assert q == 0;
    } else {
      assert q * n > 0;
      assert q == 1;
    }
  }

  /**
   * One tick of the interval: `(prev + cardsPerView) % teamMembers.length`;
   * from an index in range it moves on by one page, wrapping once past the end.
   */
  function Advance(prev: nat, cardsPerView: nat, n: nat): (r: nat)
    requires n > 0
    ensures r < n
    ensures prev < n && cardsPerView <= n ==>
      r == if prev + cardsPerView < n then prev + cardsPerView else prev + cardsPerView - n
  {
    if prev < n && cardsPerView <= n then
      ModOnce(prev + cardsPerView, n);
      (prev + cardsPerView) % n
    else
      (prev + cardsPerView) % n
  }

  /** The index after `ticks` ticks of the timer, starting from `start`. */
  function AfterTicks(start: nat, cardsPerView: nat, n: nat, ticks: nat): (r: nat)
    requires n > 0
    ensures start < n ==> r < n
  {
    if ticks == 0 then start else Advance(AfterTicks(start, cardsPerView, n, ticks - 1), cardsPerView, n)
  }

  /** `xs.slice(start, end)` for non-negative bounds, which it clamps to the length. */
  function Slice<T>(xs: seq<T>, start: nat, end: nat): (r: seq<T>)
    ensures start <= end <= |xs| ==> r == xs[start..end]
    ensures end <= start || |xs| <= start ==> r == []
  {
    var e := if end < |xs| then end else |xs|;
    if start < e then xs[start..e] else []
  }

  /**
   * `visibleMembers`: the members from `currentIndex` on, and when the
   * window runs past the end of the list, the first members again.
   */
  function VisibleMembers<T>(members: seq<T>, currentIndex: nat, cardsPerView: nat): (r: seq<T>)
    requires |members| > 0 && currentIndex < |members| && cardsPerView <= |members|
    ensures |r| == cardsPerView
    ensures forall j :: 0 <= j < cardsPerView ==> r[j] == members[(currentIndex + j) % |members|]
  {
    var n := |members|;
    var overflow := if currentIndex + cardsPerView - n > 0 then currentIndex + cardsPerView - n else 0;
    var r := Slice(members, currentIndex, currentIndex + cardsPerView) + Slice(members, 0, overflow);
    forall j | 0 <= j < cardsPerView
      ensures r[j] == members[(currentIndex + j) % n]
    {
      ModOnce(currentIndex + j, n);
    }
    r
  }

  /** When the window fits before the end of the list it is a plain slice. */
  lemma VisibleNoWrap<T>(members: seq<T>, currentIndex: nat, cardsPerView: nat)
    requires |members| > 0 && currentIndex < |members| && cardsPerView <= |members|
    requires currentIndex + cardsPerView <= |members|
    ensures VisibleMembers(members, currentIndex, cardsPerView) == members[currentIndex..currentIndex + cardsPerView]
  {
  }

  /** The position of the list shown in card `i` of the window starting at `c`. */
  function Slot(c: nat, i: nat): (p: nat)
    ensures p < TeamSize
  {
    (c + i) % TeamSize
  }

  /**
   * With four members every window width shows `cardsPerView` cards taken
   * from pairwise different positions of the list, from any index the timer
   * can hold (`AfterTicks` keeps it below four, also across a resize that
   * changes the step): the carousel never shows one position twice.
   */
  lemma TeamWindowFull<T>(members: seq<T>, width: int, c: nat)
    requires |members| == TeamSize && c < TeamSize
    ensures var k := CardsPerView(width);
      var v := VisibleMembers(members, c, k);
      && |v| == k
      && (forall i :: 0 <= i < k ==> v[i] == members[Slot(c, i)])
      && (forall i, j :: 0 <= i < j < k ==> Slot(c, i) != Slot(c, j))
  {
    var k := CardsPerView(width);
    forall i, j | 0 <= i < j < k ensures Slot(c, i) != Slot(c, j) {
      ModOnce(c + i, TeamSize);
      ModOnce(c + j, TeamSize);
    }
  }

  /**
   * Distinct positions are not distinct people: on a desktop window the
   * first page of the page's own list shows John Doe, Jane Smith and John
   * Doe again.
   */
  lemma DesktopRepeatsMember(width: int)
    requires width >= 1024
    ensures var v := VisibleMembers(TeamMembers, AfterTicks(0, CardsPerView(width), TeamSize, 0), CardsPerView(width));
      |v| == 3 && v[0] == v[2] && v[0].name == "John Doe" && v[1].name == "Jane Smith"
  {
    var v := VisibleMembers(TeamMembers, 0, 3);
    assert v[0] == TeamMembers[0] && v[2] == TeamMembers[2];
    assert v[1] == TeamMembers[1];
  }
}
