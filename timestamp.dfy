/**
 * The delivery-date check `is_valid_iso8601`: the handlers accept exactly the
 * strings that Python's `datetime.strptime(s, "%Y-%m-%dT%H:%M:%SZ")` accepts.
 *
 * `strptime` first matches a regular expression built from the format (compiled
 * case-insensitively, so the literals `T` and `Z` also match `t` and `z`), then
 * requires the whole string to be consumed, then builds a `datetime`, whose
 * constructor rejects out-of-range calendar values. The directive grammars are:
 *   %Y  exactly four digits
 *   %m  `1[0-2]|0[1-9]|[1-9]`       %d  `3[01]|[12]\d|0[1-9]|[1-9]| [1-9]`
 *   %H  `2[0-3]|[01]\d|\d`          %M  `[0-5]\d|\d`      %S  `6[01]|[0-5]\d|\d`
 * None of these fields can contain one of the separators `-`, `T`, `:` or `Z`,
 * so a match exists exactly when cutting the string at the first occurrence
 * of each separator in turn yields fields in those grammars.
 */
module Timestamp {
  import opened Basics

  datatype DateTime = DateTime(year: nat, month: nat, day: nat, hour: nat, minute: nat, second: nat)

  predicate IsDigit(c: char) { '0' <= c <= '9' }

  function DigitValue(c: char): (v: nat)
    requires IsDigit(c)
    ensures v <= 9
  {
    (c as int) - ('0' as int)
  }

  /** The position of the first character of `s` at or after `from` equal to `c` or `alt`, or `|s|`. */
  function IndexFrom(s: string, from: nat, c: char, alt: char): (i: nat)
    requires from <= |s|
    ensures from <= i <= |s|
    ensures i < |s| ==> s[i] == c || s[i] == alt
    decreases |s| - from
  {
    if from == |s| || s[from] == c || s[from] == alt then from else IndexFrom(s, from + 1, c, alt)
  }

  /** No character before the position found is `c` or `alt`. */
  lemma {:induction false} IndexFromSkips(s: string, from: nat, c: char, alt: char)
    requires from <= |s|
    ensures forall j :: from <= j < IndexFrom(s, from, c, alt) ==> s[j] != c && s[j] != alt
    decreases |s| - from
  {
    if from < |s| && s[from] != c && s[from] != alt {
      IndexFromSkips(s, from + 1, c, alt);
    }
  }

  /** The first position holding `c` or `alt` is the one found. */
  lemma {:induction false} IndexFromAt(s: string, from: nat, k: nat, c: char, alt: char)
    requires from <= k < |s| && (s[k] == c || s[k] == alt)
    requires forall j :: from <= j < k ==> s[j] != c && s[j] != alt
    ensures IndexFrom(s, from, c, alt) == k
    decreases k - from
  {
    if from < k {
      IndexFromAt(s, from + 1, k, c, alt);
    }
  }

  predicate AllDigits(f: string) {
    forall i :: 0 <= i < |f| ==> IsDigit(f[i])
  }

  /** The number a string of decimal digits spells, most significant digit first. */
  function Number(f: string): nat
    requires AllDigits(f)
    decreases |f|
  {
    if f == [] then 0 else 10 * Number(f[..|f| - 1]) + DigitValue(f[|f| - 1])
  }

  lemma NumberOfTwo(f: string)
    requires |f| == 2 && AllDigits(f)
    ensures Number(f) == 10 * DigitValue(f[0]) + DigitValue(f[1])
  {
    var h := f[..1];
    assert h[..0] == [] && h[0] == f[0];
    assert Number(h) == DigitValue(f[0]);
    assert f[..|f| - 1] == h;
  }

  lemma NumberOfFour(f: string)
    requires |f| == 4 && AllDigits(f)
    ensures Number(f) == 1000 * DigitValue(f[0]) + 100 * DigitValue(f[1]) + 10 * DigitValue(f[2]) + DigitValue(f[3])
  {
    NumberOfTwo(f[..2]);
    assert f[..3][..2] == f[..2];
    assert f[..2][..1] == f[..1];
  }

  /** %Y: exactly four digits, read as the number they spell. */
  function YearField(f: string): (r: Option<nat>)
    ensures r.Some? <==> |f| == 4 && AllDigits(f)
    ensures r.Some? ==> r.value == Number(f) && r.value <= 9999
  {
    if |f| == 4 && IsDigit(f[0]) && IsDigit(f[1]) && IsDigit(f[2]) && IsDigit(f[3])
    then NumberOfFour(f); Some(1000 * DigitValue(f[0]) + 100 * DigitValue(f[1]) + 10 * DigitValue(f[2]) + DigitValue(f[3]))
    else None
  }

  /**
   * %m, %H, %M, %S and the digit forms of %d: one or two digits whose value
   * lies in `lo..hi` (every `hi` used is at least 9, so a single digit is
   * only bounded below).
   */
  function NumberField(f: string, lo: nat, hi: nat): (r: Option<nat>)
    requires 9 <= hi
    ensures r.Some? <==> 1 <= |f| <= 2 && AllDigits(f) && lo <= Number(f) <= hi
    ensures r.Some? ==> r.value == Number(f)
  {
    if |f| == 1 && IsDigit(f[0]) && lo <= DigitValue(f[0]) then
      assert f[..0] == []; Some(DigitValue(f[0]))
    else if |f| == 2 && IsDigit(f[0]) && IsDigit(f[1]) && lo <= 10 * DigitValue(f[0]) + DigitValue(f[1]) <= hi
    then NumberOfTwo(f); Some(10 * DigitValue(f[0]) + DigitValue(f[1]))
    else
      assert |f| == 1 && AllDigits(f) ==> Number(f) == DigitValue(f[0]) by {
        if |f| == 1 && AllDigits(f) { assert f[..0] == []; }
      }
      assert |f| == 2 && AllDigits(f) ==> Number(f) == 10 * DigitValue(f[0]) + DigitValue(f[1]) by {
        if |f| == 2 && AllDigits(f) { NumberOfTwo(f); }
      }
      None
  }

  /** %d: the numeric forms `1`..`31`, plus a space followed by a digit `1`..`9`. */
  function DayField(f: string): (r: Option<nat>)
    ensures r.Some? <==>
      (|f| == 2 && f[0] == ' ' && '1' <= f[1] <= '9')
      || (1 <= |f| <= 2 && AllDigits(f) && 1 <= Number(f) <= 31)
    ensures r.Some? ==> 1 <= |f| <= 2 && 1 <= r.value <= 31
    ensures r.Some? ==> r.value == (if f[0] == ' ' then DigitValue(f[1]) else Number(f))
  {
    if |f| == 2 && f[0] == ' ' && IsDigit(f[1]) && f[1] != '0' then Some(DigitValue(f[1]))
    else NumberField(f, 1, 31)
  }

  /** The literal that ends each field, with its other case: `-`, `-`, `T`, `:`, `:`, `Z`. */
  const Separators: seq<(char, char)> := [('-', '-'), ('-', '-'), ('T', 't'), (':', ':'), (':', ':'), ('Z', 'z')]

  /**
   * Cuts `s[from..]` into fields, each ending at the first occurrence of its
   * separator; the last separator must end the string.
   */
  function Cut(s: string, from: nat, seps: seq<(char, char)>): (r: Option<seq<string>>)
    requires from <= |s|
    ensures r.Some? ==> |r.value| == |seps|
    decreases |seps|
  {
    if seps == [] then (if from == |s| then Some([]) else None)
    else
      var i := IndexFrom(s, from, seps[0].0, seps[0].1);
      if i == |s| then None
      else
        match Cut(s, i + 1, seps[1..])
        case None => None
        case Some(rest) => Some([s[from..i]] + rest)
  }

  /**
   * The regular-expression stage of `strptime`: the six fields between the
   * separators, each cut at the first occurrence of its separator, provided
   * the final `Z` ends the string. `FieldsOfJoin` and `FieldsSpell` prove
   * that this reads a string exactly as the joined pattern does.
   */
  function Fields(s: string): (r: Option<seq<string>>)
    ensures r.Some? ==> |r.value| == 6
  {
    Cut(s, 0, Separators)
  }

  /** Fields, each followed by its separator character. */
  function JoinWith(f: seq<string>, cs: seq<char>): string
    requires |f| == |cs|
    decreases |f|
  {
    if f == [] then [] else f[0] + [cs[0]] + JoinWith(f[1..], cs[1..])
  }

  /** The six fields with the pattern's separators between them, `T` and `Z` in the case given. */
  function Join(f: seq<string>, t: char, z: char): string
    requires |f| == 6
  {
    JoinWith(f, ['-', '-', t, ':', ':', z])
  }

  /** No occurrence of `c` or `alt` in `x`. */
  predicate Avoids(x: string, c: char, alt: char) {
    forall j :: 0 <= j < |x| ==> x[j] != c && x[j] != alt
  }

  /** A field holding none of the pattern's literals. */
  predicate SeparatorFree(x: string) {
    Avoids(x, '-', '-') && Avoids(x, 'T', 't') && Avoids(x, ':', ':') && Avoids(x, 'Z', 'z')
  }

  /** `cs` are separator characters in either case, and each field avoids its own separator. */
  predicate Separated(f: seq<string>, cs: seq<char>, seps: seq<(char, char)>)
    requires |f| == |cs| == |seps|
    decreases |f|
  {
    f == [] ||
    ((cs[0] == seps[0].0 || cs[0] == seps[0].1) && Avoids(f[0], seps[0].0, seps[0].1)
     && Separated(f[1..], cs[1..], seps[1..]))
  }

  /** `Separated`, field by field. */
  lemma {:induction false} SeparatedIff(f: seq<string>, cs: seq<char>, seps: seq<(char, char)>)
    requires |f| == |cs| == |seps|
    ensures Separated(f, cs, seps) <==>
      forall k :: 0 <= k < |f| ==> (cs[k] == seps[k].0 || cs[k] == seps[k].1) && Avoids(f[k], seps[k].0, seps[k].1)
    decreases |f|
  {
    if f != [] {
      SeparatedIff(f[1..], cs[1..], seps[1..]);
      forall k | 1 <= k < |f|
        ensures f[1..][k - 1] == f[k] && cs[1..][k - 1] == cs[k] && seps[1..][k - 1] == seps[k]
      {
      }
    }
  }

  /** One field of a cut, once its separator has been found. */
  lemma CutStep(s: string, from: nat, seps: seq<(char, char)>, i: nat, rest: seq<string>)
    requires from <= i < |s| && seps != []
    requires IndexFrom(s, from, seps[0].0, seps[0].1) == i
    requires Cut(s, i + 1, seps[1..]) == Some(rest)
    ensures Cut(s, from, seps) == Some([s[from..i]] + rest)
  {
  }

  /** The join written out piece by piece. */
  lemma JoinSpelled(f: seq<string>, t: char, z: char)
    requires |f| == 6
    ensures Join(f, t, z) ==
      f[0] + ['-'] + (f[1] + ['-'] + (f[2] + [t] + (f[3] + [':'] + (f[4] + [':'] + (f[5] + [z])))))
  {
    var cs := ['-', '-', t, ':', ':', z];
    assert f[6..] == [] && cs[6..] == [];
    JoinWithStep(f, cs, 5);
    assert JoinWith(f[5..], cs[5..]) == f[5] + [z];
    JoinWithStep(f, cs, 4);
    JoinWithStep(f, cs, 3);
    JoinWithStep(f, cs, 2);
    JoinWithStep(f, cs, 1);
    JoinWithStep(f, cs, 0);
    assert f[0..] == f && cs[0..] == cs;
  }

  lemma JoinWithStep(f: seq<string>, cs: seq<char>, k: nat)
    requires |f| == |cs| && k < |f|
    ensures JoinWith(f[k..], cs[k..]) == f[k] + [cs[k]] + JoinWith(f[k + 1..], cs[k + 1..])
  {
    assert f[k..][1..] == f[k + 1..] && cs[k..][1..] == cs[k + 1..];
  }

  lemma JoinLength(f: seq<string>, t: char, z: char)
    requires |f| == 6
    ensures |Join(f, t, z)| == |f[0]| + |f[1]| + |f[2]| + |f[3]| + |f[4]| + |f[5]| + 6
    ensures Join(f, t, z)[|Join(f, t, z)| - 1] == z
  {
    JoinSpelled(f, t, z);
  }

  /** The first field of a join, its separator, and the join of the rest. */
  lemma JoinWithFront(s: string, from: nat, i: nat, f: seq<string>, cs: seq<char>)
    requires from <= |s| && |f| == |cs| && f != [] && i == from + |f[0]|
    requires s[from..] == JoinWith(f, cs)
    ensures i < |s| && s[from..i] == f[0] && s[i] == cs[0]
    ensures s[i + 1..] == JoinWith(f[1..], cs[1..])
  {
    var tail := JoinWith(f[1..], cs[1..]);
    assert s[from..] == f[0] + [cs[0]] + tail;
    assert s[from..][..|f[0]|] == f[0];
    assert s[from..][|f[0]|] == cs[0];
    assert s[from..][|f[0]| + 1..] == tail;
  }

  lemma HeadTail<T>(x: T, f: seq<T>)
    requires f != [] && x == f[0]
    ensures [x] + f[1..] == f
  {
  }

  /** A separator preceded by a run that avoids it is the one found. */
  lemma FoundAfter(s: string, from: nat, i: nat, c: char, alt: char)
    requires from <= i < |s| && (s[i] == c || s[i] == alt) && Avoids(s[from..i], c, alt)
    ensures IndexFrom(s, from, c, alt) == i
  {
    forall j | from <= j < i
      ensures s[j] != c && s[j] != alt
    {
      assert s[j] == s[from..i][j - from];
    }
    IndexFromAt(s, from, i, c, alt);
  }

  /** Cutting joined fields gives them back. */
  lemma {:induction false} CutOfJoin(s: string, from: nat, f: seq<string>, cs: seq<char>, seps: seq<(char, char)>)
    requires from <= |s| && |f| == |cs| == |seps|
    requires s[from..] == JoinWith(f, cs) && Separated(f, cs, seps)
    ensures Cut(s, from, seps) == Some(f)
    decreases |f|
  {
    if f == [] {
      assert |s[from..]| == 0 && seps == [];
    } else {
      var i := from + |f[0]|;
      JoinWithFront(s, from, i, f, cs);
      FoundAfter(s, from, i, seps[0].0, seps[0].1);
      CutOfJoin(s, i + 1, f[1..], cs[1..], seps[1..]);
      CutStep(s, from, seps, i, f[1..]);
      HeadTail(s[from..i], f);
    }
  }

  /** What a cut yields, joined with the separators it found, spells the string back. */
  /** Separation extended by one field in front. */
  lemma SeparatedCons(x: string, c: char, f: seq<string>, cs: seq<char>, seps: seq<(char, char)>)
    requires |f| == |cs| && seps != [] && |seps| == |f| + 1
    requires (c == seps[0].0 || c == seps[0].1) && Avoids(x, seps[0].0, seps[0].1)
    requires Separated(f, cs, seps[1..])
    ensures Separated([x] + f, [c] + cs, seps)
  {
    assert ([x] + f)[1..] == f && ([c] + cs)[1..] == cs;
  }

  lemma SliceAround(s: string, from: nat, i: nat)
    requires from <= i < |s|
    ensures s[from..] == s[from..i] + [s[i]] + s[i + 1..]
  {
  }

  /** The text before the first separator avoids it. */
  lemma BeforeIndex(s: string, from: nat, c: char, alt: char)
    requires from <= |s|
    ensures Avoids(s[from..IndexFrom(s, from, c, alt)], c, alt)
  {
    var i := IndexFrom(s, from, c, alt);
    IndexFromSkips(s, from, c, alt);
    forall j | 0 <= j < i - from
      ensures s[from..i][j] != c && s[from..i][j] != alt
    {
      assert s[from..i][j] == s[from + j];
    }
  }

  /** What a cut yields, joined with the separators it found, spells the string back. */
  lemma {:induction false} CutSpells(s: string, from: nat, seps: seq<(char, char)>)
    requires from <= |s| && Cut(s, from, seps).Some?
    ensures exists cs :: |cs| == |seps| && s[from..] == JoinWith(Cut(s, from, seps).value, cs)
                      && Separated(Cut(s, from, seps).value, cs, seps)
    decreases |seps|
  {
    var f := Cut(s, from, seps).value;
    if seps == [] {
      assert s[from..] == [] == JoinWith(f, []);
      assert Separated(f, [], seps);
    } else {
      var i := IndexFrom(s, from, seps[0].0, seps[0].1);
      var rest := Cut(s, i + 1, seps[1..]).value;
      assert f == [s[from..i]] + rest;
      CutSpells(s, i + 1, seps[1..]);
      var cs' :| |cs'| == |seps| - 1 && s[i + 1..] == JoinWith(rest, cs') && Separated(rest, cs', seps[1..]);
      var cs := [s[i]] + cs';
      assert s[from..] == JoinWith(f, cs) by {
        assert f[0] == s[from..i] && f[1..] == rest && cs[0] == s[i] && cs[1..] == cs';
        SliceAround(s, from, i);
      }
      assert Separated(f, cs, seps) by {
        BeforeIndex(s, from, seps[0].0, seps[0].1);
        SeparatedCons(s[from..i], s[i], rest, cs', seps);
      }
    }
  }

  /**
   * The pattern stage cuts six separator-free fields, joined by their
   * separators in either case, back into those fields, whatever their widths.
   */
  lemma FieldsOfJoin(f: seq<string>, t: char, z: char)
    requires |f| == 6 && forall k :: 0 <= k < 6 ==> SeparatorFree(f[k])
    requires (t == 'T' || t == 't') && (z == 'Z' || z == 'z')
    ensures Fields(Join(f, t, z)) == Some(f)
  {
    var s := Join(f, t, z);
    var cs := ['-', '-', t, ':', ':', z];
    assert Separated(f, cs, Separators) by {
      forall k | 0 <= k < 6
        ensures (cs[k] == Separators[k].0 || cs[k] == Separators[k].1) && Avoids(f[k], Separators[k].0, Separators[k].1)
      {
        assert SeparatorFree(f[k]);
      }
      SeparatedIff(f, cs, Separators);
    }
    assert s[0..] == s;
    CutOfJoin(s, 0, f, cs, Separators);
  }

  /**
   * What the pattern stage cuts spells the string back: the fields joined by
   * the separators found, each field free of the separator that ends it.
   */
  lemma FieldsSpell(s: string)
    requires Fields(s).Some?
    ensures var f := Fields(s).value;
      && (forall k :: 0 <= k < 6 ==> Avoids(f[k], Separators[k].0, Separators[k].1))
      && exists t, z :: (t == 'T' || t == 't') && (z == 'Z' || z == 'z') && s == Join(f, t, z)
  {
    var f := Fields(s).value;
    CutSpells(s, 0, Separators);
    var cs :| |cs| == 6 && s[0..] == JoinWith(f, cs) && Separated(f, cs, Separators);
    assert s[0..] == s;
    SeparatorsFound(f, cs);
    var t, z := cs[2], cs[5];
    assert (t == 'T' || t == 't') && (z == 'Z' || z == 'z') && s == Join(f, t, z);
  }

  /** The separators a cut finds are the pattern's, with `T` and `Z` in either case. */
  lemma SeparatorsFound(f: seq<string>, cs: seq<char>)
    requires |f| == |cs| == 6 && Separated(f, cs, Separators)
    ensures cs == ['-', '-', cs[2], ':', ':', cs[5]]
    ensures (cs[2] == 'T' || cs[2] == 't') && (cs[5] == 'Z' || cs[5] == 'z')
    ensures forall k :: 0 <= k < 6 ==> Avoids(f[k], Separators[k].0, Separators[k].1)
  {
    SeparatedIff(f, cs, Separators);
    assert Separators[0].1 == '-' && Separators[1].1 == '-' && Separators[3].1 == ':' && Separators[4].1 == ':';
    assert cs[0] == '-' && cs[1] == '-' && cs[3] == ':' && cs[4] == ':';
  }

  /** A joined string is a valid date exactly when its fields read as one. */
  lemma JoinValid(f: seq<string>, t: char, z: char)
    requires |f| == 6 && forall k :: 0 <= k < 6 ==> SeparatorFree(f[k])
    requires (t == 'T' || t == 't') && (z == 'Z' || z == 'z')
    ensures Parse(Join(f, t, z)) == FromFields(f)
    ensures IsValidIso8601(Join(f, t, z)) <==> FromFields(f).Some? && IsCalendarValid(FromFields(f).value)
  {
    FieldsOfJoin(f, t, z);
  }

  /** Reads the six fields under their directive grammars. */
  function FromFields(f: seq<string>): Option<DateTime>
    requires |f| == 6
  {
    var y, mo, d := YearField(f[0]), NumberField(f[1], 1, 12), DayField(f[2]);
    var h, mi, sec := NumberField(f[3], 0, 23), NumberField(f[4], 0, 59), NumberField(f[5], 0, 61);
    if y.Some? && mo.Some? && d.Some? && h.Some? && mi.Some? && sec.Some?
    then Some(DateTime(y.value, mo.value, d.value, h.value, mi.value, sec.value))
    else None
  }

  function Parse(s: string): Option<DateTime> {
    match Fields(s)
    case None => None
    case Some(f) => FromFields(f)
  }

  predicate IsLeapYear(y: nat) {
    y % 4 == 0 && (y % 100 != 0 || y % 400 == 0)
  }

  function DaysInMonth(y: nat, m: nat): nat
    requires 1 <= m <= 12
  {
    if m == 2 then (if IsLeapYear(y) then 29 else 28)
    else if m == 4 || m == 6 || m == 9 || m == 11 then 30
    else 31
  }

  /** The range checks of the `datetime` constructor. */
  predicate IsCalendarValid(dt: DateTime) {
    && 1 <= dt.year <= 9999
    && 1 <= dt.month <= 12
    && 1 <= dt.day <= DaysInMonth(dt.year, dt.month)
    && dt.hour <= 23 && dt.minute <= 59 && dt.second <= 59
  }

  /**
   * `is_valid_iso8601`: true exactly when `strptime` returns without a
   * ValueError. Whatever it accepts has the shape `AcceptedShape` proves.
   */
  function IsValidIso8601(s: string): (b: bool)
    ensures b ==> 15 <= |s| <= 20 && s[4] == '-' && (s[|s| - 1] == 'Z' || s[|s| - 1] == 'z')
  {
    match Parse(s)
    case Some(dt) => AcceptedShape(s); IsCalendarValid(dt)
    case None => false
  }

  // ---------------------------------------------------------------------
  // A reference formatter: the canonical, zero-padded rendering of a date.

  function DigitChar(n: nat): (c: char)
    requires n <= 9
    ensures IsDigit(c) && DigitValue(c) == n
  {
    ('0' as int + n) as char
  }

  function Pad2(n: nat): (s: string)
    requires n <= 99
    ensures |s| == 2 && IsDigit(s[0]) && IsDigit(s[1])
    ensures 10 * DigitValue(s[0]) + DigitValue(s[1]) == n
  {
    [DigitChar(n / 10), DigitChar(n % 10)]
  }

  function Pad4(n: nat): (s: string)
    requires n <= 9999
    ensures |s| == 4 && IsDigit(s[0]) && IsDigit(s[1]) && IsDigit(s[2]) && IsDigit(s[3])
    ensures 1000 * DigitValue(s[0]) + 100 * DigitValue(s[1]) + 10 * DigitValue(s[2]) + DigitValue(s[3]) == n
  {
    var q1 := n / 10;
    var q2 := q1 / 10;
    [DigitChar(q2 / 10), DigitChar(q2 % 10), DigitChar(q1 % 10), DigitChar(n % 10)]
  }

  /** `YYYY-MM-DDTHH:MM:SSZ`, the form the API documents for `deliveryDate`. */
  function Format(dt: DateTime): (s: string)
    requires IsCalendarValid(dt)
    ensures |s| == 20
  {
    var y, mo, d := Pad4(dt.year), Pad2(dt.month), Pad2(dt.day);
    var h, mi, sec := Pad2(dt.hour), Pad2(dt.minute), Pad2(dt.second);
    [y[0], y[1], y[2], y[3], '-', mo[0], mo[1], '-', d[0], d[1], 'T',
     h[0], h[1], ':', mi[0], mi[1], ':', sec[0], sec[1], 'Z']
  }

  /**
   * A string laid out like `YYYY-MM-DDTHH:MM:SSZ` (either case for `T` and
   * `Z`): digits at every position but the six separators.
   */
  predicate CanonicalLayout(s: string) {
    && |s| == 20
    && s[4] == '-' && s[7] == '-' && (s[10] == 'T' || s[10] == 't')
    && s[13] == ':' && s[16] == ':' && (s[19] == 'Z' || s[19] == 'z')
    && AllDigits(s[..4]) && AllDigits(s[5..7]) && AllDigits(s[8..10])
    && AllDigits(s[11..13]) && AllDigits(s[14..16]) && AllDigits(s[17..19])
  }

  lemma DigitsSeparatorFree(x: string)
    requires AllDigits(x)
    ensures SeparatorFree(x)
  {
  }

  /** A field, its separator and the join of the fields after it. */
  lemma JoinSuffix(s: string, lo: nat, hi: nat, f: seq<string>, cs: seq<char>, k: nat)
    requires lo <= hi < |s| && |f| == |cs| && k < |f|
    requires s[lo..hi] == f[k] && s[hi] == cs[k] && s[hi + 1..] == JoinWith(f[k + 1..], cs[k + 1..])
    ensures s[lo..] == JoinWith(f[k..], cs[k..])
  {
    JoinWithStep(f, cs, k);
    SliceAround(s, lo, hi);
  }

  /** A string in the canonical layout is its six digit fields joined by its separators. */
  lemma CanonicalJoin(s: string)
    requires CanonicalLayout(s)
    ensures s == Join([s[..4], s[5..7], s[8..10], s[11..13], s[14..16], s[17..19]], s[10], s[19])
  {
    var f := [s[..4], s[5..7], s[8..10], s[11..13], s[14..16], s[17..19]];
    var cs := ['-', '-', s[10], ':', ':', s[19]];
    CanonicalTimeJoin(s, f, cs);
    JoinSuffix(s, 8, 10, f, cs, 2);
    JoinSuffix(s, 5, 7, f, cs, 1);
    assert s[0..4] == f[0];
    JoinSuffix(s, 0, 4, f, cs, 0);
    assert s[0..] == s && f[0..] == f && cs[0..] == cs;
  }

  /** The time part of the canonical layout, joined. */
  lemma CanonicalTimeJoin(s: string, f: seq<string>, cs: seq<char>)
    requires CanonicalLayout(s)
    requires f == [s[..4], s[5..7], s[8..10], s[11..13], s[14..16], s[17..19]]
    requires cs == ['-', '-', s[10], ':', ':', s[19]]
    ensures s[11..] == JoinWith(f[3..], cs[3..])
  {
    assert s[20..] == [] == JoinWith(f[6..], cs[6..]);
    JoinSuffix(s, 17, 19, f, cs, 5);
    JoinSuffix(s, 14, 16, f, cs, 4);
    JoinSuffix(s, 11, 13, f, cs, 3);
  }

  lemma CanonicalFields(s: string)
    requires CanonicalLayout(s)
    ensures Fields(s) == Some([s[..4], s[5..7], s[8..10], s[11..13], s[14..16], s[17..19]])
  {
    var f := [s[..4], s[5..7], s[8..10], s[11..13], s[14..16], s[17..19]];
    forall k | 0 <= k < 6 ensures SeparatorFree(f[k]) {
      DigitsSeparatorFree(f[k]);
    }
    CanonicalJoin(s);
    FieldsOfJoin(f, s[10], s[19]);
  }

  /** The character layout of the canonical form. */
  lemma FormatLayout(dt: DateTime)
    requires IsCalendarValid(dt)
    ensures var s := Format(dt);
      && CanonicalLayout(s)
      && s[..4] == Pad4(dt.year) && s[5..7] == Pad2(dt.month) && s[8..10] == Pad2(dt.day)
      && s[11..13] == Pad2(dt.hour) && s[14..16] == Pad2(dt.minute) && s[17..19] == Pad2(dt.second)
  {
    var s := Format(dt);
    var y, mo, d := Pad4(dt.year), Pad2(dt.month), Pad2(dt.day);
    var h, mi, sec := Pad2(dt.hour), Pad2(dt.minute), Pad2(dt.second);
    assert y == [y[0], y[1], y[2], y[3]] && s[..4] == [s[0], s[1], s[2], s[3]];
    assert mo == [mo[0], mo[1]] && s[5..7] == [s[5], s[6]];
    assert d == [d[0], d[1]] && s[8..10] == [s[8], s[9]];
    assert h == [h[0], h[1]] && s[11..13] == [s[11], s[12]];
    assert mi == [mi[0], mi[1]] && s[14..16] == [s[14], s[15]];
    assert sec == [sec[0], sec[1]] && s[17..19] == [s[17], s[18]];
  }

  lemma FormatFields(dt: DateTime)
    requires IsCalendarValid(dt)
    ensures Fields(Format(dt)) == Some([Pad4(dt.year), Pad2(dt.month), Pad2(dt.day), Pad2(dt.hour), Pad2(dt.minute), Pad2(dt.second)])
  {
    FormatLayout(dt);
    CanonicalFields(Format(dt));
  }

  lemma Pad2Field(n: nat, lo: nat, hi: nat)
    requires 9 <= hi && lo <= n <= hi && n <= 99
    ensures NumberField(Pad2(n), lo, hi) == Some(n)
  {
  }

  lemma Pad4Field(n: nat)
    requires n <= 9999
    ensures YearField(Pad4(n)) == Some(n)
  {
  }

  /** Every date in the documented canonical form is accepted and parses back to itself. */
  lemma {:induction false} FormatParses(dt: DateTime)
    requires IsCalendarValid(dt)
    ensures Parse(Format(dt)) == Some(dt)
    ensures IsValidIso8601(Format(dt))
  {
    FormatFields(dt);
    Pad4Field(dt.year);
    Pad2Field(dt.month, 1, 12);
    Pad2Field(dt.day, 1, 31);
    assert DayField(Pad2(dt.day)) == Some(dt.day);
    Pad2Field(dt.hour, 0, 23);
    Pad2Field(dt.minute, 0, 59);
    Pad2Field(dt.second, 0, 61);
  }

  /** The accepted date of the handlers' tests. */
  lemma AcceptsTestDate()
    ensures IsValidIso8601("2025-02-14T12:00:00Z")
  {
    var dt := DateTime(2025, 2, 14, 12, 0, 0);
    assert Format(dt) == "2025-02-14T12:00:00Z" by {
      assert Pad4(2025) == "2025";
      assert Pad2(2) == "02" && Pad2(14) == "14" && Pad2(12) == "12" && Pad2(0) == "00";
    }
    FormatParses(dt);
  }

  /** The literals `T` and `Z` are matched case-insensitively. */
  lemma {:induction false} LowerCaseSeparatorsAccepted(dt: DateTime)
    requires IsCalendarValid(dt)
    ensures IsValidIso8601(Format(dt)[10 := 't'][19 := 'z'])
  {
    var s := Format(dt);
    var l := s[10 := 't'][19 := 'z'];
    FormatLayout(dt);
    assert CanonicalLayout(l);
    CanonicalFields(l);
    CanonicalFields(s);
    assert l[..4] == s[..4] && l[5..7] == s[5..7] && l[8..10] == s[8..10];
    assert l[11..13] == s[11..13] && l[14..16] == s[14..16] && l[17..19] == s[17..19];
    FormatParses(dt);
  }

  /** The rejected date of the handlers' tests: a date without a time. */
  lemma RejectsDateOnly()
    ensures !IsValidIso8601("2025-02-14")
  {
  }

  /**
   * What the pattern accepts is wider than the documented fixed-width form:
   * between 15 and 20 characters, the year spelled by the first four, and a
   * final `Z` or `z`.
   */
  lemma AcceptedShape(s: string)
    requires Parse(s).Some?
    ensures 15 <= |s| <= 20
    ensures s[4] == '-' && (s[|s| - 1] == 'Z' || s[|s| - 1] == 'z')
    ensures AllDigits(s[..4]) && Parse(s).value.year == Number(s[..4])
  {
    var f := Fields(s).value;
    assert Parse(s) == FromFields(f);
    FieldWidths(f);
    FieldsShape(s);
  }

  /** A string that cuts into fields, the first four wide, opens with them and ends in `Z`. */
  lemma FieldsShape(s: string)
    requires Fields(s).Some? && |Fields(s).value[0]| == 4
    ensures var f := Fields(s).value;
      && s[..4] == f[0] && s[4] == '-'
      && |s| == |f[0]| + |f[1]| + |f[2]| + |f[3]| + |f[4]| + |f[5]| + 6
      && (s[|s| - 1] == 'Z' || s[|s| - 1] == 'z')
  {
    var f := Fields(s).value;
    FieldsSpell(s);
    var t, z :| (t == 'T' || t == 't') && (z == 'Z' || z == 'z') && s == Join(f, t, z);
    JoinShape(f, t, z);
  }

  /** The year field leads a join, followed by `-`; the final literal ends it. */
  lemma JoinShape(f: seq<string>, t: char, z: char)
    requires |f| == 6 && |f[0]| == 4
    ensures Join(f, t, z)[..4] == f[0] && Join(f, t, z)[4] == '-'
    ensures |Join(f, t, z)| == |f[0]| + |f[1]| + |f[2]| + |f[3]| + |f[4]| + |f[5]| + 6
    ensures Join(f, t, z)[|Join(f, t, z)| - 1] == z
  {
    var s := Join(f, t, z);
    var cs := ['-', '-', t, ':', ':', z];
    assert s[0..] == s;
    JoinWithFront(s, 0, 4, f, cs);
    assert s[0..4] == s[..4];
    JoinLength(f, t, z);
  }

  /** The widths the directive grammars allow, and the year the first field spells. */
  lemma FieldWidths(f: seq<string>)
    requires |f| == 6 && FromFields(f).Some?
    ensures |f[0]| == 4 && 1 <= |f[1]| <= 2 && 1 <= |f[2]| <= 2
    ensures 1 <= |f[3]| <= 2 && 1 <= |f[4]| <= 2 && 1 <= |f[5]| <= 2
    ensures AllDigits(f[0]) && FromFields(f).value.year == Number(f[0])
  {
  }

  /** The fields of a date with every field after the year written as a single digit. */
  function ShortFields(dt: DateTime): (f: seq<string>)
    requires IsCalendarValid(dt)
    requires dt.month <= 9 && dt.day <= 9 && dt.hour <= 9 && dt.minute <= 9 && dt.second <= 9
    ensures |f| == 6
  {
    [Pad4(dt.year), [DigitChar(dt.month)], [DigitChar(dt.day)], [DigitChar(dt.hour)],
     [DigitChar(dt.minute)], [DigitChar(dt.second)]]
  }

  function ShortFormat(dt: DateTime): string
    requires IsCalendarValid(dt)
    requires dt.month <= 9 && dt.day <= 9 && dt.hour <= 9 && dt.minute <= 9 && dt.second <= 9
  {
    Join(ShortFields(dt), 'T', 'Z')
  }

  /** The single-digit fields read back as the date. */
  lemma ShortRead(dt: DateTime)
    requires IsCalendarValid(dt)
    requires dt.month <= 9 && dt.day <= 9 && dt.hour <= 9 && dt.minute <= 9 && dt.second <= 9
    ensures forall k :: 0 <= k < 6 ==> SeparatorFree(ShortFields(dt)[k])
    ensures FromFields(ShortFields(dt)) == Some(dt)
  {
    var f := ShortFields(dt);
    forall k | 0 <= k < 6 ensures SeparatorFree(f[k]) {
      DigitsSeparatorFree(f[k]);
    }
    Pad4Field(dt.year);
    assert f[1][..0] == [] && f[2][..0] == [] && f[3][..0] == [] && f[4][..0] == [] && f[5][..0] == [];
  }

  /** Single-digit fields are accepted: the check is not fixed-width. */
  lemma ShortFormAccepted(dt: DateTime)
    requires IsCalendarValid(dt)
    requires dt.month <= 9 && dt.day <= 9 && dt.hour <= 9 && dt.minute <= 9 && dt.second <= 9
    ensures |ShortFormat(dt)| == 15
    ensures Parse(ShortFormat(dt)) == Some(dt)
    ensures IsValidIso8601(ShortFormat(dt))
  {
    ShortRead(dt);
    JoinValid(ShortFields(dt), 'T', 'Z');
    JoinLength(ShortFields(dt), 'T', 'Z');
  }

  /** The zero-padded date with the day padded by a space instead, as `%d` allows. */
  function SpacePaddedFields(dt: DateTime): (f: seq<string>)
    requires IsCalendarValid(dt) && dt.day <= 9
    ensures |f| == 6
  {
    [Pad4(dt.year), Pad2(dt.month), [' ', DigitChar(dt.day)], Pad2(dt.hour), Pad2(dt.minute), Pad2(dt.second)]
  }

  function SpacePaddedFormat(dt: DateTime): string
    requires IsCalendarValid(dt) && dt.day <= 9
  {
    Join(SpacePaddedFields(dt), 'T', 'Z')
  }

  /** A space followed by a digit other than zero reads as that day. */
  lemma SpaceDayField(d: nat)
    requires 1 <= d <= 9
    ensures DayField([' ', DigitChar(d)]) == Some(d)
  {
  }

  /** The fields of the space-padded form read back as the date. */
  lemma SpacePaddedRead(dt: DateTime)
    requires IsCalendarValid(dt) && dt.day <= 9
    ensures forall k :: 0 <= k < 6 ==> SeparatorFree(SpacePaddedFields(dt)[k])
    ensures FromFields(SpacePaddedFields(dt)) == Some(dt)
  {
    var f := SpacePaddedFields(dt);
    forall k | 0 <= k < 6 ensures SeparatorFree(f[k]) {
      if k != 2 { DigitsSeparatorFree(f[k]); }
    }
    Pad4Field(dt.year);
    Pad2Field(dt.month, 1, 12);
    Pad2Field(dt.hour, 0, 23);
    Pad2Field(dt.minute, 0, 59);
    Pad2Field(dt.second, 0, 61);
    SpaceDayField(dt.day);
  }

  /** The space-padded form is 20 characters long, with the space where the day starts. */
  lemma SpacePaddedLayout(dt: DateTime)
    requires IsCalendarValid(dt) && dt.day <= 9
    ensures |SpacePaddedFormat(dt)| == 20 && SpacePaddedFormat(dt)[8] == ' '
  {
    var f := SpacePaddedFields(dt);
    var cs := ['-', '-', 'T', ':', ':', 'Z'];
    var s := SpacePaddedFormat(dt);
    JoinLength(f, 'T', 'Z');
    assert s[0..] == s && f[0..] == f && cs[0..] == cs;
    JoinWithFront(s, 0, 4, f[0..], cs[0..]);
    JoinWithFront(s, 5, 7, f[1..], cs[1..]);
    assert f[1..][1..] == f[2..] && cs[1..][1..] == cs[2..];
    JoinWithFront(s, 8, 10, f[2..], cs[2..]);
    assert s[8..10] == f[2];
  }

  /** A day written as a space and one digit is accepted. */
  lemma SpacePaddedDayAccepted(dt: DateTime)
    requires IsCalendarValid(dt) && dt.day <= 9
    ensures |SpacePaddedFormat(dt)| == 20 && SpacePaddedFormat(dt)[8] == ' '
    ensures Parse(SpacePaddedFormat(dt)) == Some(dt)
    ensures IsValidIso8601(SpacePaddedFormat(dt))
  {
    SpacePaddedRead(dt);
    JoinValid(SpacePaddedFields(dt), 'T', 'Z');
    SpacePaddedLayout(dt);
  }

  lemma SpacePaddedExampleFields()
    ensures SpacePaddedFields(DateTime(2025, 2, 4, 12, 0, 0)) == ["2025", "02", " 4", "12", "00", "00"]
  {
    assert Pad4(2025) == "2025";
    assert Pad2(2) == "02" && Pad2(12) == "12" && Pad2(0) == "00";
    assert DigitChar(4) == '4';
  }

  lemma SpacePaddedExample()
    ensures SpacePaddedFormat(DateTime(2025, 2, 4, 12, 0, 0)) == "2025-02- 4T12:00:00Z"
  {
    SpacePaddedExampleFields();
    JoinSpelled(["2025", "02", " 4", "12", "00", "00"], 'T', 'Z');
  }

  /** The example of a space-padded day. */
  lemma AcceptsSpacePaddedDay()
    ensures IsValidIso8601("2025-02- 4T12:00:00Z")
  {
    SpacePaddedExample();
    SpacePaddedDayAccepted(DateTime(2025, 2, 4, 12, 0, 0));
  }
}
