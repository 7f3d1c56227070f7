/**
 * One program cell of the timetable: whether it is on air or archived, the
 * colours and opacity that follow, the zero-padded start minute, the detail
 * dialog bound to the selected program id, and the thumbnail that is shown
 * only while the title block is short.
 */
module TimetableProgram {
  import opened Wrappers
  import opened Text
  import ProgramPage

  datatype Program = Program(id: string, channelId: string, title: string, thumbnailUrl: string, startAt: int, endAt: int)

  /** `isOnAir`: started and not yet ended. */
  predicate IsOnAir(p: Program, now: int) {
    p.startAt <= now && now < p.endAt
  }

  /** `isArchived`: ended. */
  predicate IsArchived(p: Program, now: int) {
    p.endAt <= now
  }

  /**
   * A program is never both on air and archived; when it does not end before
   * it starts, it is neither exactly when it has not started yet.
   */
  lemma OnAirAndArchivedExclusive(p: Program, now: int)
    ensures !(IsOnAir(p, now) && IsArchived(p, now))
    ensures p.startAt <= p.endAt ==> (!IsOnAir(p, now) && !IsArchived(p, now) <==> now < p.startAt)
  {
  }

  /** The classes and colours the cell takes from its status. */
  datatype Appearance = Appearance(
    hoveredClass: string, opacity: nat, background: string, minuteColor: string, titleColor: string)

  function AppearanceAt(p: Program, now: int): (a: Appearance)
    ensures a.hoveredClass == (if IsArchived(p, now) then "brightness-200" else "brightness-125")
    ensures a.opacity == (if IsArchived(p, now) then 50 else 100)
    ensures a.background == (if IsOnAir(p, now) then "#FCF6E5" else "#212121")
  {
    var archived := IsArchived(p, now);
    var onAir := IsOnAir(p, now);
    Appearance(
      if archived then "brightness-200" else "brightness-125",
      if archived then 50 else 100,
      if onAir then "#FCF6E5" else "#212121",
      if onAir then "#767676" else "#999999",
      if onAir then "#212121" else "#ffffff")
  }

  /** The button's class list, with the height, background and opacity filled in. */
  function ButtonClassName(height: nat, a: Appearance): string {
    ButtonHead(height) + ButtonBody(a) + " opacity-" + NatToString(a.opacity)
  }

  /** The height class the button starts with. */
  function ButtonHead(height: nat): string {
    "h-[" + NatToString(height) + "px]"
  }

  /** The classes between the height and the opacity: border, background and padding. */
  function ButtonBody(a: Appearance): string {
    " w-auto border-[1px] border-solid border-[#000000] bg-[" + a.background + "] px-[12px] py-[8px] text-left"
  }

  /**
   * The button's class list carries the cell's height first and ends with
   * the opacity of its status: `opacity-50` exactly when archived.
   */
  lemma ButtonClassNameFollowsStatus(height: nat, p: Program, now: int)
    ensures var c := ButtonClassName(height, AppearanceAt(p, now));
      && StartsWith(c, "h-[" + NatToString(height) + "px]")
      && (EndsWith(c, " opacity-50") <==> IsArchived(p, now))
      && (EndsWith(c, " opacity-100") <==> !IsArchived(p, now))
  {
    ButtonClassNameParts(height, AppearanceAt(p, now));
  }

  lemma ButtonClassNameParts(height: nat, a: Appearance)
    requires a.opacity == 50 || a.opacity == 100
    ensures StartsWith(ButtonClassName(height, a), "h-[" + NatToString(height) + "px]")
    ensures EndsWith(ButtonClassName(height, a), " opacity-50") <==> a.opacity == 50
    ensures EndsWith(ButtonClassName(height, a), " opacity-100") <==> a.opacity == 100
  {
    OpacitySuffix(ButtonHead(height) + ButtonBody(a), a.opacity);
    PrefixOfConcat(ButtonHead(height), ButtonBody(a), " opacity-", NatToString(a.opacity));
  }

  lemma PrefixOfConcat(w: string, x: string, y: string, z: string)
    ensures StartsWith(w + x + y + z, w)
  {
    assert (w + x + y + z)[..|w|] == w;
  }

  lemma OpacitySuffix(x: string, n: nat)
    requires n == 50 || n == 100
    ensures EndsWith(x + " opacity-" + NatToString(n), " opacity-50") <==> n == 50
    ensures EndsWith(x + " opacity-" + NatToString(n), " opacity-100") <==> n == 100
  {
    var c := x + " opacity-" + NatToString(n);
    if n == 50 {
      assert NatToString(50) == "50";
      assert c[|c| - 11..] == " opacity-50";
      assert c[|c| - 3] == '-' != " opacity-100"[9];
    } else {
      assert NatToString(100) == "100";
      assert c[|c| - 12..] == " opacity-100";
      assert c[|c| - 2] == '0' != " opacity-50"[9];
    }
  }

  /**
   * The three status classes follow the clock: upcoming and on-air programs
   * are fully opaque, archived ones half transparent and brighter on hover,
   * and only an on-air program gets the light background.
   */
  lemma AppearanceByStatus(p: Program, now: int)
    requires p.startAt <= p.endAt
    ensures now < p.startAt ==> AppearanceAt(p, now) == Appearance("brightness-125", 100, "#212121", "#999999", "#ffffff")
    ensures IsOnAir(p, now) ==> AppearanceAt(p, now) == Appearance("brightness-125", 100, "#FCF6E5", "#767676", "#212121")
    ensures IsArchived(p, now) ==> AppearanceAt(p, now) == Appearance("brightness-200", 50, "#212121", "#999999", "#ffffff")
  {
  }

  const MsPerMinute: nat := 60000

  /**
   * `new Date(startAt).getMinutes()` in a zone `offsetMinutes` ahead of UTC;
   * the division is floor division, as for instants before 1970.
   */
  function LocalMinutes(startAt: int, offsetMinutes: int): (m: nat)
    ensures m < 60
  {
    ((startAt + offsetMinutes * MsPerMinute) / MsPerMinute) % 60
  }

  /**
   * The cell's start minute is the minute the program page reads from the
   * same instant: both take `getMinutes()` of `new Date(startAt)`.
   */
  lemma LocalMinutesAgree(startAt: int, offsetMinutes: int)
    ensures LocalMinutes(startAt, offsetMinutes) == ProgramPage.LocalTimeOf(startAt, offsetMinutes).minutes
  {
    MinuteOfDay(startAt + offsetMinutes * MsPerMinute);
  }

  /** The minute within the hour of the time of day is the minute count modulo 60. */
  lemma MinuteOfDay(local: int)
    ensures ((local % 86400000) % 3600000) / 60000 == (local / 60000) % 60
  {
    var q, r := local / 60000, local % 60000;
    var a, b := q / 60, q % 60;
    var d, e := local / 86400000, local % 86400000;
    assert local == a * 3600000 + (b * 60000 + r);
    assert e == (a - 24 * d) * 3600000 + (b * 60000 + r);
    DivModUnique(e, a - 24 * d, b * 60000 + r, 3600000);
    DivModUnique(b * 60000 + r, b, r, 60000);
  }

  lemma DivModUnique(x: int, q: int, r: int, n: int)
    requires n > 0 && 0 <= r < n && x == q * n + r
    ensures x / n == q && x % n == r
  {
    var k := q - x / n;
    assert x == (x / n) * n + x % n;
    assert k * n == x % n - r;
    MulBounds(k, n);
  }

  lemma MulBounds(k: int, n: int)
    requires n > 0
    ensures k > 0 ==> k * n >= n
    ensures k < 0 ==> k * n <= -n
  {
  }

  /** The start-minute label, `getMinutes().toString().padStart(2, '0')`. */
  function MinuteLabel(startAt: int, offsetMinutes: int): string {
    Pad2(LocalMinutes(startAt, offsetMinutes))
  }

  /** The label is two digits that read back as the start minute. */
  lemma MinuteLabelIsTwoDigits(startAt: int, offsetMinutes: int)
    ensures |MinuteLabel(startAt, offsetMinutes)| == 2
    ensures AllDigits(MinuteLabel(startAt, offsetMinutes))
    ensures ParseDigits(MinuteLabel(startAt, offsetMinutes)) == LocalMinutes(startAt, offsetMinutes)
  {
    Pad2Value(LocalMinutes(startAt, offsetMinutes));
  }

  /** Programs starting a whole number of hours apart carry the same label. */
  lemma MinuteLabelIgnoresHours(startAt: int, offsetMinutes: int, hours: int)
    ensures MinuteLabel(startAt + hours * 3600000, offsetMinutes) == MinuteLabel(startAt, offsetMinutes)
  {
    var local := startAt + offsetMinutes * MsPerMinute;
    assert startAt + hours * 3600000 + offsetMinutes * MsPerMinute == local + (hours * 60) * MsPerMinute;
    DivShift(local, hours * 60);
    assert (local / MsPerMinute + hours * 60) % 60 == (local / MsPerMinute) % 60;
  }

  lemma DivShift(a: int, k: int)
    ensures (a + k * MsPerMinute) / MsPerMinute == a / MsPerMinute + k
  {
    var q := a / MsPerMinute;
    assert a == q * 60000 + a % 60000;
    assert a + k * MsPerMinute == (q + k) * 60000 + a % 60000;
  }

  /** `program.id === selectedProgramId`: the detail dialog is open for the selected program only. */
  predicate DialogOpen(selectedProgramId: Option<string>, p: Program) {
    selectedProgramId == Some(p.id)
  }

  /** The shared selected-program store. */
  class Selection {
    var selectedProgramId: Option<string>

    constructor()
      ensures selectedProgramId == None
    {
      selectedProgramId := None;
    }

    /** `onClick`: `setProgram(program)` selects this program. */
    method Click(p: Program)
      modifies this
      ensures selectedProgramId == Some(p.id)
    {
      selectedProgramId := Some(p.id);
    }
  }

  /**
   * After a click on a program, its dialog is open and so is the dialog of
   * every program with the same id, and no other.
   */
  lemma ClickOpensOnlyThatDialog(p: Program, q: Program)
    ensures DialogOpen(Some(p.id), q) <==> q.id == p.id
  {
  }

  /** Nothing is selected at first, so every dialog starts closed. */
  lemma NoDialogBeforeSelection(q: Program)
    ensures !DialogOpen(None, q)
  {
  }

  /** `shouldImageBeVisible`, as the resize observer keeps it. */
  class Thumbnail {
    var visible: bool
    var observing: bool

    /** Only the observer shows the image: without it the state keeps its initial false. */
    predicate Valid()
      reads this
    {
      observing || !visible
    }

    /** The state starts false; the observer is attached only when both elements exist. */
    constructor(titleMounted: bool, imageMounted: bool)
      ensures Valid()
      ensures !visible
      ensures observing == (titleMounted && imageMounted)
    {
      visible := false;
      observing := titleMounted && imageMounted;
    }

    /**
     * A resize of the title block of height `clientHeight`. While observed,
     * the thumbnail is opaque exactly when the title block is under 100px;
     * a thumbnail that is not observed stays transparent.
     */
    method OnResize(clientHeight: int)
      requires Valid()
      modifies this
      ensures Valid()
      ensures observing == old(observing)
      ensures visible == (if observing then clientHeight < 100 else old(visible))
      ensures observing ==> (OpacityClass() == "opacity-100" <==> clientHeight < 100)
      ensures !observing ==> OpacityClass() == "opacity-0"
    {
      if observing {
        visible := clientHeight < 100;
      }
    }

    /** The opacity class of the thumbnail wrapper. */
    function OpacityClass(): (c: string)
      reads this
      ensures c == "opacity-100" <==> visible
      ensures c == "opacity-0" <==> !visible
    {
      if visible then "opacity-100" else "opacity-0"
    }
  }
}
