/** The Python string operations the pages rely on: `str.lower`, the substring
    test `needle in hay`, `str.strip` and `str.split(',')`. */
module Text {
  import opened Seqs

  // ---------------------------------------------------------------- lower()

  /** Lower-casing of one character, restricted to ASCII letters. */
  function LowerChar(c: char): char {
    if 'A' <= c <= 'Z' then (c as int + 32) as char else c
  }

  function Lower(s: string): (r: string)
    ensures |r| == |s|
    ensures forall i :: 0 <= i < |s| ==> r[i] == LowerChar(s[i])
  {
    if s == [] then [] else [LowerChar(s[0])] + Lower(s[1..])
  }

  lemma LowerIdempotent(s: string)
    ensures Lower(Lower(s)) == Lower(s)
  {
  }

  lemma LowerEmpty(s: string)
    ensures Lower(s) == "" <==> s == ""
  {
  }

  // ---------------------------------------------------------- needle in hay

  /** Python's `needle in hay` on strings: `needle` occurs as a contiguous
      slice of `hay`; the empty string occurs in every string. */
  predicate Contains(hay: string, needle: string)
    decreases |hay|
  {
    needle <= hay || (|hay| > 0 && Contains(hay[1..], needle))
  }

  /** `needle` occurs in `hay` starting at index `i`. */
  predicate OccursAt(hay: string, needle: string, i: int) {
    0 <= i && i + |needle| <= |hay| && hay[i..i + |needle|] == needle
  }

  lemma {:induction false} ContainsAt(hay: string, needle: string)
    ensures Contains(hay, needle) <==> exists i :: OccursAt(hay, needle, i)
  {
    if Contains(hay, needle) {
      ContainsHasOccurrence(hay, needle);
    }
    if exists i :: OccursAt(hay, needle, i) {
      var i :| OccursAt(hay, needle, i);
      OccurrenceIsContained(hay, needle, i);
    }
  }

  lemma {:induction false} ContainsHasOccurrence(hay: string, needle: string)
    requires Contains(hay, needle)
    ensures exists i :: OccursAt(hay, needle, i)
    decreases |hay|
  {
    if needle <= hay {
      assert OccursAt(hay, needle, 0) by {
        assert hay[..|needle|] == needle;
      }
    } else {
      ContainsHasOccurrence(hay[1..], needle);
      var i :| OccursAt(hay[1..], needle, i);
      assert OccursAt(hay, needle, i + 1) by {
        assert hay[1..][i..i + |needle|] == hay[i + 1..i + 1 + |needle|];
      }
    }
  }

  lemma {:induction false} OccurrenceIsContained(hay: string, needle: string, i: int)
    requires OccursAt(hay, needle, i)
    ensures Contains(hay, needle)
    decreases i
  {
    if i == 0 {
      assert needle <= hay;
    } else {
      assert OccursAt(hay[1..], needle, i - 1) by {
        assert hay[1..][i - 1..i - 1 + |needle|] == hay[i..i + |needle|];
      }
      OccurrenceIsContained(hay[1..], needle, i - 1);
    }
  }

  // ---------------------------------------------------------------- strip()

  /** The characters Python's `str.isspace` accepts, which `str.strip()`
      removes: tab to carriage return, the four information separators, space,
      next line, no-break space and the Unicode space separators. */
  predicate IsSpace(c: char) {
    var n := c as int;
    (9 <= n <= 13) || (28 <= n <= 32) || n == 0x85 || n == 0xA0 || n == 0x1680
    || (0x2000 <= n <= 0x200A) || n == 0x2028 || n == 0x2029 || n == 0x202F
    || n == 0x205F || n == 0x3000
  }

  predicate IsBlank(s: string) {
    forall i :: 0 <= i < |s| ==> IsSpace(s[i])
  }

  /** A string that `strip()` leaves as it is. */
  predicate IsStripped(s: string) {
    s == [] || (!IsSpace(s[0]) && !IsSpace(s[|s| - 1]))
  }

  /** Number of whitespace characters at the start of `s`. */
  function LeadingSpace(s: string): (n: nat)
    ensures n <= |s|
    ensures forall k :: 0 <= k < n ==> IsSpace(s[k])
    ensures n < |s| ==> !IsSpace(s[n])
  {
    if s == [] || !IsSpace(s[0]) then 0 else 1 + LeadingSpace(s[1..])
  }

  /** Number of whitespace characters at the end of `s`. */
  function TrailingSpace(s: string): (n: nat)
    ensures n <= |s|
    ensures forall k :: |s| - n <= k < |s| ==> IsSpace(s[k])
    ensures n < |s| ==> !IsSpace(s[|s| - 1 - n])
  {
    if s == [] || !IsSpace(s[|s| - 1]) then 0 else 1 + TrailingSpace(s[..|s| - 1])
  }

  /** `r` is `s` with exactly the blank prefix `s[..i]` and a blank suffix removed. */
  predicate TrimsTo(s: string, i: int, r: string) {
    0 <= i && i + |r| <= |s| && r == s[i..i + |r|] && IsBlank(s[..i]) && IsBlank(s[i + |r|..])
  }

  /** Python's `s.strip()`: the slice of `s` left after removing whitespace at
      both ends. */
  function Strip(s: string): (r: string)
    ensures IsStripped(r)
    ensures r == [] <==> IsBlank(s)
    ensures exists i :: TrimsTo(s, i, r)
    ensures forall c :: c in r ==> c in s
  {
    var i := LeadingSpace(s);
    var t := s[i..];
    var j := |t| - TrailingSpace(t);
    assert t[..j] == s[i..i + j];
    assert i < |s| ==> !IsSpace(s[i]) && j > 0;
    assert TrimsTo(s, i, s[i..i + j]);
    s[i..i + j]
  }

  lemma StripStripped(s: string)
    requires IsStripped(s)
    ensures Strip(s) == s
  {
  }

  lemma StripIdempotent(s: string)
    ensures Strip(Strip(s)) == Strip(s)
  {
    StripStripped(Strip(s));
  }

  // ------------------------------------------------------------ split(',')

  /** Python's `s.split(sep)` for a one-character separator: the pieces
      between separators, one more than there are separators, so the empty
      string splits into one empty piece. */
  function Split(s: string, sep: char): (parts: seq<string>)
    ensures |parts| >= 1
    ensures forall k :: 0 <= k < |parts| ==> sep !in parts[k]
  {
    if s == [] then [""]
    else
      var rest := Split(s[1..], sep);
      if s[0] == sep then [""] + rest
      else [[s[0]] + rest[0]] + rest[1..]
  }

  /** Python's `sep.join(parts)`. */
  function Join(parts: seq<string>, sep: char): string {
    if parts == [] then ""
    else if |parts| == 1 then parts[0]
    else parts[0] + [sep] + Join(parts[1..], sep)
  }

  lemma {:induction false} JoinSplit(s: string, sep: char)
    ensures Join(Split(s, sep), sep) == s
  {
    if s != [] {
      var rest := Split(s[1..], sep);
      JoinSplit(s[1..], sep);
      if s[0] != sep {
        if |rest| == 1 {
          assert Split(s, sep) == [[s[0]] + rest[0]];
        } else {
          var parts := Split(s, sep);
          assert parts[1..] == rest[1..];
          assert Join(rest, sep) == rest[0] + [sep] + Join(rest[1..], sep);
          assert s == [s[0]] + s[1..];
        }
      }
    }
  }

  /** Splitting a piece without separators in front of a joined list. */
  lemma {:induction false} SplitPrefix(w: string, tail: string, sep: char)
    requires sep !in w
    ensures Split(w + [sep] + tail, sep) == [w] + Split(tail, sep)
  {
    if w != [] {
      assert (w + [sep] + tail)[1..] == w[1..] + [sep] + tail;
      SplitPrefix(w[1..], tail, sep);
      assert [w[0]] + w[1..] == w;
    } else {
      assert w + [sep] + tail == [sep] + tail;
    }
  }

  lemma {:induction false} SplitNoSep(w: string, sep: char)
    requires sep !in w
    ensures Split(w, sep) == [w]
  {
    if w != [] {
      SplitNoSep(w[1..], sep);
      assert [w[0]] + w[1..] == w;
    }
  }

  lemma {:induction false} SplitJoin(parts: seq<string>, sep: char)
    requires |parts| >= 1
    requires forall k :: 0 <= k < |parts| ==> sep !in parts[k]
    ensures Split(Join(parts, sep), sep) == parts
  {
    if |parts| == 1 {
      SplitNoSep(parts[0], sep);
    } else {
      SplitJoin(parts[1..], sep);
      SplitPrefix(parts[0], Join(parts[1..], sep), sep);
      assert [parts[0]] + parts[1..] == parts;
    }
  }

  // ------------------------------------------ comma-separated input lists

  /** `[item.strip() for item in parts if item.strip()]`. */
  function StripNonEmpty(parts: seq<string>): (items: seq<string>)
    ensures |items| <= |parts|
    ensures forall k :: 0 <= k < |items| ==> items[k] != "" && IsStripped(items[k])
    ensures (forall k :: 0 <= k < |parts| ==> ',' !in parts[k]) ==>
            forall k :: 0 <= k < |items| ==> ',' !in items[k]
  {
    if parts == [] then []
    else
      var t := Strip(parts[0]);
      var rest := StripNonEmpty(parts[1..]);
      if t != "" then [t] + rest else rest
  }

  /** `[item.strip() for item in parts]`. */
  function StripEach(parts: seq<string>): (r: seq<string>)
    ensures |r| == |parts|
    ensures forall k :: 0 <= k < |parts| ==> r[k] == Strip(parts[k])
  {
    if parts == [] then [] else [Strip(parts[0])] + StripEach(parts[1..])
  }

  function NonEmptyItem(): string -> bool {
    (t: string) => t != ""
  }

  /** The stored list of a comma-separated form field. */
  function ParseCommaList(text: string): (items: seq<string>)
    ensures forall k :: 0 <= k < |items| ==> items[k] != "" && IsStripped(items[k]) && ',' !in items[k]
  {
    StripNonEmpty(Split(text, ','))
  }

  lemma {:induction false} StripNonEmptyClean(parts: seq<string>)
    requires forall k :: 0 <= k < |parts| ==> parts[k] != "" && IsStripped(parts[k])
    ensures StripNonEmpty(parts) == parts
  {
    if parts != [] {
      StripStripped(parts[0]);
      StripNonEmptyClean(parts[1..]);
    }
  }

  /** A list of non-empty, stripped, comma-free items survives being joined
      with commas and parsed back. */
  lemma ParseJoinRoundTrip(items: seq<string>)
    requires forall k :: 0 <= k < |items| ==> items[k] != "" && IsStripped(items[k]) && ',' !in items[k]
    ensures ParseCommaList(Join(items, ',')) == items
  {
    if items == [] {
      assert Split("", ',') == [""];
    } else {
      SplitJoin(items, ',');
      StripNonEmptyClean(items);
    }
  }

  /** The comprehension is the stripped pieces with the empty ones dropped:
      the same items, in the pieces' order. */
  lemma {:induction false} StripNonEmptyIsFilter(parts: seq<string>)
    ensures StripNonEmpty(parts) == Filter(StripEach(parts), NonEmptyItem())
  {
    if parts != [] {
      StripNonEmptyIsFilter(parts[1..]);
      assert StripEach(parts)[1..] == StripEach(parts[1..]);
    }
  }

  /** An item is stored iff it is the non-empty strip of some piece, and the
      items keep the pieces' order. */
  lemma StripNonEmptyMembership(parts: seq<string>)
    ensures forall t :: t in StripNonEmpty(parts) <==>
              t != "" && exists j :: 0 <= j < |parts| && Strip(parts[j]) == t
    ensures IsSubsequence(StripNonEmpty(parts), StripEach(parts))
  {
    StripNonEmptyIsFilter(parts);
    var stripped := StripEach(parts);
    forall t ensures t in StripNonEmpty(parts) <==> t != "" && exists j :: 0 <= j < |parts| && Strip(parts[j]) == t {
      if t in StripNonEmpty(parts) {
        var i :| 0 <= i < |stripped| && stripped[i] == t;
        assert Strip(parts[i]) == t;
      }
      if t != "" && exists j :: 0 <= j < |parts| && Strip(parts[j]) == t {
        var j :| 0 <= j < |parts| && Strip(parts[j]) == t;
        assert NonEmptyItem()(stripped[j]);
      }
    }
    FilterIsSubsequence(stripped, NonEmptyItem());
  }

  /** Pieces typed between commas, padded with whitespace or blank, are stored
      stripped, with the blank ones dropped, in order. */
  lemma ParsePaddedList(pieces: seq<string>)
    requires |pieces| >= 1
    requires forall k :: 0 <= k < |pieces| ==> ',' !in pieces[k]
    ensures ParseCommaList(Join(pieces, ',')) == Filter(StripEach(pieces), NonEmptyItem())
  {
    SplitJoin(pieces, ',');
    StripNonEmptyIsFilter(pieces);
  }

  lemma StripPaddedCards()
    ensures Strip(" cards") == "cards"
  {
    var s := " cards";
    assert IsSpace(s[0]) && !IsSpace(s[1]);
    assert LeadingSpace(s) == 1;
    assert s[1..] == "cards";
    StripStripped("cards");
  }

  lemma JoinDiceCards()
    ensures Join(["dice", " cards"], ',') == "dice, cards"
  {
    assert ["dice", " cards"][1..] == [" cards"];
  }

  lemma FilterDiceCards()
    ensures Filter(["dice", "cards"], NonEmptyItem()) == ["dice", "cards"]
  {
    FilterKeepsAll(["dice", "cards"], NonEmptyItem());
  }

  lemma StripEachDiceCards()
    ensures StripEach(["dice", " cards"]) == ["dice", "cards"]
  {
    var pieces := ["dice", " cards"];
    assert pieces[1..] == [" cards"] && pieces[1..][1..] == [];
    StripStripped("dice");
    StripPaddedCards();
    assert StripEach(pieces[1..]) == ["cards"];
  }

  /** "dice, cards" is stored as the two items "dice" and "cards". */
  lemma DiceCardsExample()
    ensures ParseCommaList("dice, cards") == ["dice", "cards"]
  {
    var pieces := ["dice", " cards"];
    JoinDiceCards();
    ParsePaddedList(pieces);
    StripEachDiceCards();
    FilterDiceCards();
  }
}
