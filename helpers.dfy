/** The duration formatter: every "min" in a text duration becomes " minutes". */
module Helpers {
  import opened Text

  /** The formatter's argument: a text, or some other value such as a number. */
  datatype Duration = TextDuration(text: string) | NumberDuration(value: int)

  const Min: string := "min"
  const Minutes: string := " minutes"

  /** Python's `s.replace("min", " minutes")`: occurrences are replaced from
      left to right. */
  function ReplaceMin(s: string): string
    decreases |s|
  {
    if Min <= s then Minutes + ReplaceMin(s[|Min|..])
    else if s == [] then []
    else [s[0]] + ReplaceMin(s[1..])
  }

  /** The number of occurrences `ReplaceMin` replaces. */
  function CountMin(s: string): nat
    decreases |s|
  {
    if Min <= s then 1 + CountMin(s[|Min|..])
    else if s == [] then 0
    else CountMin(s[1..])
  }

  /** The number of positions of `s` at which "min" starts. */
  function Occurrences(s: string): nat
    decreases |s|
  {
    if s == [] then 0 else (if Min <= s then 1 else 0) + Occurrences(s[1..])
  }

  function FormatGameDuration(d: Duration): (r: Duration)
    ensures !d.TextDuration? ==> r == d
    ensures d.TextDuration? && !Contains(d.text, Min) ==> r == d
    ensures d.TextDuration? ==> r.TextDuration? && |r.text| == |d.text| + 5 * Occurrences(d.text)
  {
    match d
    case TextDuration(s) =>
      ReplaceMinLength(s);
      CountMinIsOccurrences(s);
      if Contains(s, Min) then TextDuration(ReplaceMin(s))
      else
        NoMinUnchanged(s);
        d
    case NumberDuration(_) => d
  }

  // ------------------------------------------------------------ properties

  /** Each replacement adds five characters. */
  lemma {:induction false} ReplaceMinLength(s: string)
    ensures |ReplaceMin(s)| == |s| + 5 * CountMin(s)
    decreases |s|
  {
    if Min <= s {
      ReplaceMinLength(s[|Min|..]);
    } else if s != [] {
      ReplaceMinLength(s[1..]);
    }
  }

  /** "min" cannot overlap itself, so the left-to-right scan replaces every
      occurrence. */
  lemma {:induction false} CountMinIsOccurrences(s: string)
    ensures CountMin(s) == Occurrences(s)
    decreases |s|
  {
    if Min <= s {
      CountMinIsOccurrences(s[|Min|..]);
      assert !(Min <= s[1..]) && !(Min <= s[2..]) by {
        assert s[1] == 'i' && s[2] == 'n';
      }
      assert s[1..][1..] == s[2..] && s[2..][1..] == s[3..];
      assert Occurrences(s[2..]) == Occurrences(s[3..]);
      assert Occurrences(s[1..]) == Occurrences(s[2..]);
    } else if s != [] {
      CountMinIsOccurrences(s[1..]);
    }
  }

  /** A text without "min" is returned as it is. */
  lemma {:induction false} NoMinUnchanged(s: string)
    requires !Contains(s, Min)
    ensures ReplaceMin(s) == s && CountMin(s) == 0
    decreases |s|
  {
    if s != [] {
      NoMinUnchanged(s[1..]);
      assert [s[0]] + s[1..] == s;
    }
  }

  /** The first "min" is replaced where it stands, everything before it is
      copied, and the scan goes on after it. With `NoMinUnchanged` this fixes
      `ReplaceMin` on every text. */
  lemma {:induction false} ReplaceFirst(a: string, b: string)
    requires !Contains(a, Min)
    ensures ReplaceMin(a + Min + b) == a + Minutes + ReplaceMin(b)
    decreases |a|
  {
    var s := a + Min + b;
    if a == [] {
      assert s == Min + b && s[|Min|..] == b;
    } else {
      NoMinAtFront(a, b);
      assert s[1..] == a[1..] + Min + b;
      ReplaceFirst(a[1..], b);
      var rest := ReplaceMin(b);
      calc {
        ReplaceMin(s);
        [a[0]] + ReplaceMin(s[1..]);
        [a[0]] + (a[1..] + Minutes + rest);
        { assert [a[0]] + a[1..] == a; }
        a + Minutes + rest;
      }
    }
  }

  /** A non-empty prefix without "min" puts no "min" at the front. */
  lemma NoMinAtFront(a: string, b: string)
    requires a != [] && !Contains(a, Min)
    ensures !(Min <= a + Min + b)
  {
    var s := a + Min + b;
    if |a| >= 3 {
      assert s[..3] == a[..3];
      assert !(Min <= a);
    } else if |a| == 1 {
      assert s[1] == 'm';
    } else {
      assert s[2] == 'm';
    }
  }

  /** Formatting a text replaces its first "min" by " minutes" in place. */
  lemma FormatReplacesFirst(a: string, b: string)
    requires !Contains(a, Min)
    ensures FormatGameDuration(TextDuration(a + Min + b)) == TextDuration(a + Minutes + ReplaceMin(b))
  {
    var s := a + Min + b;
    assert OccursAt(s, Min, |a|) by {
      assert s[|a|..|a| + |Min|] == Min;
    }
    ContainsAt(s, Min);
    ReplaceFirst(a, b);
  }

  /** A text containing "min" has at least one occurrence replaced, and the
      result still contains "min". */
  lemma {:induction false} MinSurvives(s: string)
    requires Contains(s, Min)
    ensures CountMin(s) >= 1
    ensures Contains(ReplaceMin(s), Min)
    decreases |s|
  {
    if Min <= s {
      var rest := ReplaceMin(s[|Min|..]);
      assert (Minutes + rest)[1..] == "minutes" + rest;
      assert Min <= (Minutes + rest)[1..];
    } else {
      MinSurvives(s[1..]);
    }
  }

  /** Formatting twice differs from formatting once whenever the first call
      replaced something. */
  lemma FormatNotIdempotent(d: Duration)
    requires d.TextDuration? && Contains(d.text, Min)
    ensures FormatGameDuration(FormatGameDuration(d)) != FormatGameDuration(d)
  {
    MinSurvives(d.text);
    var once := FormatGameDuration(d);
    MinSurvives(once.text);
    CountMinIsOccurrences(once.text);
  }

  /** Past a position where "min" does not start, one character is copied. */
  lemma ReplaceMinCopies(s: string)
    requires s != [] && s[0] != Min[0]
    ensures ReplaceMin(s) == [s[0]] + ReplaceMin(s[1..])
  {
    assert !(Min <= s);
  }

  lemma ThirtyMinContains()
    ensures Contains("30 min", Min)
  {
    var s := "30 min";
    assert Min <= s[3..];
    assert s[1..][1..] == s[2..] && s[2..][1..] == s[3..];
  }

  lemma ThirtyMinReplaced()
    ensures ReplaceMin("30 min") == "30  minutes"
  {
    var s := "30 min";
    assert ReplaceMin(s[3..]) == Minutes by {
      assert s[3..] == Min && Min[|Min|..] == [];
    }
    ReplaceMinCopies(s[2..]);
    assert s[2..][1..] == s[3..];
    ReplaceMinCopies(s[1..]);
    assert s[1..][1..] == s[2..];
    ReplaceMinCopies(s);
  }

  /** The example duration "30 min" gains a doubled space. */
  lemma ThirtyMinutes()
    ensures FormatGameDuration(TextDuration("30 min")) == TextDuration("30  minutes")
  {
    ThirtyMinContains();
    ThirtyMinReplaced();
  }
}
