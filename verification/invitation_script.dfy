/** `public/js/script.js` of the invitation page: the countdown's split of the
    remaining milliseconds and the two-digit texts it shows, the music button's
    `isPlaying` flag, and the placement of the section ornaments. */
module InvitationScript {
  import Text

  const MsPerSecond := 1000
  const MsPerMinute := 60000
  const MsPerHour := 3600000
  const MsPerDay := 86400000

  datatype Split = Split(days: nat, hours: nat, minutes: nat, seconds: nat)

  /** The four `Math.floor` expressions for a non-negative distance. */
  function SplitOf(distance: nat): (s: Split)
    ensures s.hours < 24 && s.minutes < 60 && s.seconds < 60
  {
    Split(distance / MsPerDay, (distance % MsPerDay) / MsPerHour,
          (distance % MsPerHour) / MsPerMinute, (distance % MsPerMinute) / MsPerSecond)
  }

  function Millis(s: Split): nat {
    s.days * MsPerDay + s.hours * MsPerHour + s.minutes * MsPerMinute + s.seconds * MsPerSecond
  }

  /** The split loses only the milliseconds below a second. */
  lemma SplitReconstructs(distance: nat)
    ensures Millis(SplitOf(distance)) <= distance < Millis(SplitOf(distance)) + MsPerSecond
  {
    var s := SplitOf(distance);
    var d, r1 := distance / MsPerDay, distance % MsPerDay;
    assert distance == d * MsPerDay + r1;
    var r2 := r1 % MsPerHour;
    assert r1 == s.hours * MsPerHour + r2;
    assert distance % MsPerHour == r2 by { ModNested(distance, MsPerHour, 24); }
    var r3 := r2 % MsPerMinute;
    assert r2 == s.minutes * MsPerMinute + r3;
    assert distance % MsPerMinute == r3 by {
      ModNested(distance, MsPerMinute, 60);
      ModNested(distance, MsPerMinute, 1440);
      ModNested(r1, MsPerMinute, 60);
    }
    assert r3 == s.seconds * MsPerSecond + r3 % MsPerSecond;
  }

  /** Taking a remainder by a multiple first does not change the remainder. */
  lemma ModNested(x: nat, m: nat, k: nat)
    requires m > 0 && k > 0
    ensures (x % (m * k)) % m == x % m
  {
    var q, r := x / (m * k), x % (m * k);
    assert x == q * (m * k) + r;
    var rr := r % m;
    assert r == (r / m) * m + rr;
    assert x == (q * k + r / m) * m + rr by {
      assert q * (m * k) == (q * k) * m;
    }
    ModUnique(x, m, q * k + r / m, rr);
  }

  /** The remainder is the only value in `[0, m)` that leaves a multiple of `m`. */
  lemma ModUnique(x: int, m: nat, k: int, rr: int)
    requires m > 0 && 0 <= rr < m && x == k * m + rr
    ensures x % m == rr
  {
    var q := x / m;
    assert x == q * m + x % m;
    if q > k {
      MulMono(q - k, m);
    } else if q < k {
      MulMono(k - q, m);
    }
  }

  lemma MulMono(d: int, m: nat)
    requires d >= 1
    ensures d * m >= m
  {
  }

  /** `value.toString().padStart(2, '0')`. */
  function Padded(v: nat): (t: string)
    ensures |t| >= 2
    ensures forall i :: 0 <= i < |t| ==> Text.IsDigit(t[i])
  {
    Text.PadStart(Text.NatToString(v), 2, '0')
  }

  /** The padded text still reads as the value. */
  lemma {:induction false} PaddedValue(v: nat)
    ensures Text.DigitsValue(Padded(v)) == v
  {
    var s := Text.NatToString(v);
    Text.NatToStringValue(v);
    if |s| < 2 {
      LeadingZeros(s);
      assert Padded(v) == "0" + s;
    }
  }

  lemma LeadingZeros(s: string)
    requires |s| == 1 && Text.IsDigit(s[0])
    ensures Text.DigitsValue("0" + s) == Text.DigitsValue(s)
  {
    assert ("0" + s)[..1] == "0";
    assert s[..0] == [];
  }

  /** The texts of `days`, `hours`, `minutes` and `seconds`: `"00"` each once the
      target has passed. */
  function Shown(distance: int): (t: seq<string>)
    ensures |t| == 4
    ensures distance < 0 ==> t == ["00", "00", "00", "00"]
    ensures distance >= 0 ==> t == Digits(SplitOf(distance))
  {
    if distance < 0 then ["00", "00", "00", "00"] else Digits(SplitOf(distance))
  }

  function Digits(s: Split): (t: seq<string>)
    ensures |t| == 4
  {
    [Padded(s.days), Padded(s.hours), Padded(s.minutes), Padded(s.seconds)]
  }

  /** Before the last day every field is exactly two digits. */
  lemma TwoDigitsBelowHundredDays(distance: int)
    requires 0 <= distance < 100 * MsPerDay
    ensures forall i :: 0 <= i < 4 ==> |Shown(distance)[i]| == 2
  {
    var s := SplitOf(distance);
    assert s.days < 100;
    PaddedTwoDigits(s.days);
    PaddedTwoDigits(s.hours);
    PaddedTwoDigits(s.minutes);
    PaddedTwoDigits(s.seconds);
  }

  lemma PaddedTwoDigits(v: nat)
    requires v < 100
    ensures |Padded(v)| == 2
  {
    if v >= 10 {
      assert Text.NatToString(v) == Text.NatToString(v / 10) + [Text.DigitChar(v % 10)];
    }
  }

  /** The four countdown elements, by id, and their text. */
  class Countdown {
    var texts: map<string, string>

    constructor (texts: map<string, string>)
      ensures this.texts == texts
    {
      this.texts := texts;
    }

    /** `updateCountdownElement`: a present element gets the padded text, and only
        when it differs is it rewritten (the scale animation runs then). */
    method UpdateElement(id: string, value: nat) returns (rewritten: bool)
      modifies this
      ensures rewritten <==> id in old(texts) && old(texts)[id] != Padded(value)
      ensures id in old(texts) ==> texts == old(texts)[id := Padded(value)]
      ensures id !in old(texts) ==> texts == old(texts)
    {
      rewritten := false;
      if id in texts {
        var newValue := Padded(value);
        if texts[id] != newValue {
          texts := texts[id := newValue];
          rewritten := true;
        } else {
          assert texts == texts[id := newValue];
        }
      }
    }

    /** `updateCountdown` with `distance = targetDate - now`. The past branch writes
        the four elements directly, so they must exist. */
    method Update(distance: int)
      requires "days" in texts && "hours" in texts && "minutes" in texts && "seconds" in texts
      modifies this
      ensures var t := Shown(distance);
              texts == old(texts)["days" := t[0]]["hours" := t[1]]["minutes" := t[2]]["seconds" := t[3]]
    {
      if distance < 0 {
        texts := texts["days" := "00"]["hours" := "00"]["minutes" := "00"]["seconds" := "00"];
        return;
      }
      var s := SplitOf(distance);
      var _ := UpdateElement("days", s.days);
      var _ := UpdateElement("hours", s.hours);
      var _ := UpdateElement("minutes", s.minutes);
      var _ := UpdateElement("seconds", s.seconds);
    }
  }

  // ---------------------------------------------------------------------------
  // music button

  const PlayIcon := "https://img.icons8.com/material-rounded/24/ffffff/play-button-circled--v1.png"
  const PauseIcon := "https://img.icons8.com/material-rounded/24/ffffff/pause-button.png"

  class Music {
    var isPlaying: bool
    var icon: string

    constructor (icon: string)
      ensures !isPlaying && this.icon == icon
    {
      isPlaying := false;
      this.icon := icon;
    }

    /** A click pauses or tries to play; the flag flips either way, even when
        `play()` is refused and the icon keeps showing "play". */
    method Click(playSucceeds: bool)
      modifies this
      ensures isPlaying == !old(isPlaying)
      ensures old(isPlaying) ==> icon == PlayIcon
      ensures !old(isPlaying) ==> icon == if playSucceeds then PauseIcon else old(icon)
    {
      if isPlaying {
        icon := PlayIcon;
      } else if playSucceeds {
        icon := PauseIcon;
      }
      isPlaying := !isPlaying;
    }

    /** The audio's `ended` event. */
    method Ended()
      modifies this
      ensures !isPlaying && icon == PlayIcon
    {
      isPlaying := false;
      icon := PlayIcon;
    }
  }

  // ---------------------------------------------------------------------------
  // ornaments

  const SvgCount := 3

  datatype Side = Right | Left
  datatype Ornament = Ornament(section: nat, svg: nat, side: Side)

  /** The ornaments of one section: two for an even index, none otherwise. */
  function SectionOrnaments(index: nat): seq<Ornament> {
    if index % 2 == 0 then [Ornament(index, index % SvgCount, Right), Ornament(index, (index + 1) % SvgCount, Left)]
    else []
  }

  /** The ornaments added to the first `n` sections, in order. */
  function OrnamentsUpTo(n: nat): seq<Ornament> {
    if n == 0 then [] else OrnamentsUpTo(n - 1) + SectionOrnaments(n - 1)
  }

  /** `addIslamicOrnaments`: the `forEach` over the sections. */
  method AddOrnaments(sections: nat) returns (added: seq<Ornament>)
    ensures added == OrnamentsUpTo(sections)
    ensures |added| == 2 * ((sections + 1) / 2)
  {
    added := [];
    var index := 0;
    while index < sections
      invariant 0 <= index <= sections
      invariant added == OrnamentsUpTo(index)
      invariant |added| == 2 * ((index + 1) / 2)
    {
      added := added + SectionOrnaments(index);
      index := index + 1;
    }
  }

  /** Only even sections get ornaments, and each side uses its own picture. */
  lemma {:induction false} OrnamentPlacement(n: nat)
    ensures forall o | o in OrnamentsUpTo(n) :: o.section < n && o.section % 2 == 0 && o.svg < SvgCount
    ensures forall o | o in OrnamentsUpTo(n) ::
              o.svg == if o.side == Right then o.section % SvgCount else (o.section + 1) % SvgCount
  {
    if n > 0 {
      OrnamentPlacement(n - 1);
      var prev, last := OrnamentsUpTo(n - 1), SectionOrnaments(n - 1);
      assert forall o :: o in prev + last <==> o in prev || o in last;
    }
  }

  /** Every even section gets one ornament on each side. */
  lemma {:induction false} OrnamentCoverage(n: nat)
    ensures forall s: nat | s < n && s % 2 == 0 ::
              Ornament(s, s % SvgCount, Right) in OrnamentsUpTo(n) &&
              Ornament(s, (s + 1) % SvgCount, Left) in OrnamentsUpTo(n)
  {
    if n > 0 {
      OrnamentCoverage(n - 1);
      var prev, last := OrnamentsUpTo(n - 1), SectionOrnaments(n - 1);
      assert forall o | o in prev :: o in prev + last;
      assert forall o | o in last :: o in prev + last;
    }
  }
}
