/** The sort key that orders class columns in the timetable view:
    a class such as "3B" or "10 a" sorts by its number, then by its
    upper-cased letters; any other name sorts after them. */
module ClassOrder {
  import opened Results
  import opened Text

  /** The number given to a class name the pattern does not match (10**9). */
  const UNMATCHED: int := 1_000_000_000

  /** `\d`, restricted to ASCII digits. */
  predicate IsDigit(c: char)
  {
    '0' as int <= c as int <= '9' as int
  }

  /** `\s`: the characters for which Python's `str.isspace()` holds. */
  predicate IsSpace(c: char)
  {
    var n := c as int;
    || 0x09 <= n <= 0x0D
    || 0x1C <= n <= 0x20
    || n == 0x85 || n == 0xA0 || n == 0x1680
    || 0x2000 <= n <= 0x200A
    || n == 0x2028 || n == 0x2029 || n == 0x202F || n == 0x205F || n == 0x3000
  }

  /** The letter class `[A-Za-zÀ-ÖØ-öø-ÿ]`. */
  predicate IsLetter(c: char)
  {
    var n := c as int;
    || 'A' as int <= n <= 'Z' as int
    || 'a' as int <= n <= 'z' as int
    || 0xC0 <= n <= 0xD6
    || 0xD8 <= n <= 0xF6
    || 0xF8 <= n <= 0xFF
  }

  /** Length of the longest prefix of `s` whose characters satisfy `p`. */
  function Run(s: string, p: char -> bool): (n: nat)
    ensures n <= |s|
    ensures forall i :: 0 <= i < n ==> p(s[i])
  {
    if |s| == 0 || !p(s[0]) then 0 else 1 + Run(s[1..], p)
  }

  lemma {:induction false} RunOfPrefix(xs: string, ys: string, p: char -> bool)
    requires forall i :: 0 <= i < |xs| ==> p(xs[i])
    requires |ys| == 0 || !p(ys[0])
    ensures Run(xs + ys, p) == |xs|
    ensures (xs + ys)[..|xs|] == xs && (xs + ys)[|xs|..] == ys
  {
    if |xs| > 0 {
      assert (xs + ys)[1..] == xs[1..] + ys;
      RunOfPrefix(xs[1..], ys, p);
    } else {
      assert xs + ys == ys;
    }
  }

  /** Python `int()` of an ASCII digit string. */
  function DecimalValue(ds: string): (n: nat)
    requires forall i :: 0 <= i < |ds| ==> IsDigit(ds[i])
  {
    if |ds| == 0 then 0
    else
      assert IsDigit(ds[|ds| - 1]);
      10 * DecimalValue(ds[..|ds| - 1]) + (ds[|ds| - 1] as int - '0' as int)
  }

  /** Python `str.upper()` on one letter of the class: ASCII and Latin-1
      lower case move up by 0x20, `ß` becomes "SS", `ÿ` becomes `Ÿ`. */
  function UpperChar(c: char): string
  {
    var n := c as int;
    if 'a' as int <= n <= 'z' as int || 0xE0 <= n <= 0xF6 || 0xF8 <= n <= 0xFE then [(n - 0x20) as char]
    else if n == 0xDF then "SS"
    else if n == 0xFF then [0x178 as char]
    else [c]
  }

  function Upper(s: string): string
  {
    if |s| == 0 then "" else UpperChar(s[0]) + Upper(s[1..])
  }

  /** `sort_classi`: `re.match(r"(\d+)\s*([letters]+)")` at the start of the
      name; the key is (number, letters upper-cased) when it matches and
      (10**9, name) when it does not. */
  function ClassKey(classe: string): (key: (int, string))
    ensures |classe| == 0 || !IsDigit(classe[0]) ==> key == (UNMATCHED, classe)
  {
    var nd := Run(classe, IsDigit);
    if nd == 0 then (UNMATCHED, classe)
    else
      match Letters(classe[nd..])
      case Some(ls) => (DecimalValue(classe[..nd]), Upper(ls))
      case None => (UNMATCHED, classe)
  }

  /** The letters of `\s*([letters]+)` at the start of `after`, if any. */
  function Letters(after: string): Option<string>
  {
    var word := after[Run(after, IsSpace)..];
    var nl := Run(word, IsLetter);
    if nl == 0 then None else Some(word[..nl])
  }

  lemma LettersOfParts(ws: string, ls: string, tail: string)
    requires forall i :: 0 <= i < |ws| ==> IsSpace(ws[i])
    requires |ls| > 0 && forall i :: 0 <= i < |ls| ==> IsLetter(ls[i])
    requires |tail| == 0 || !IsLetter(tail[0])
    ensures Letters(ws + (ls + tail)) == Some(ls)
  {
    RunOfPrefix(ls, tail, IsLetter);
    assert (ls + tail)[0] == ls[0];
    RunOfPrefix(ws, ls + tail, IsSpace);
  }

  /** A name made of digits, optional blanks, letters and then anything
      not starting with a letter gets the number and the upper-cased
      letters as its key. */
  lemma ClassKeyOfParts(ds: string, ws: string, ls: string, tail: string)
    requires |ds| > 0 && forall i :: 0 <= i < |ds| ==> IsDigit(ds[i])
    requires forall i :: 0 <= i < |ws| ==> IsSpace(ws[i])
    requires |ls| > 0 && forall i :: 0 <= i < |ls| ==> IsLetter(ls[i])
    requires |tail| == 0 || !IsLetter(tail[0])
    ensures ClassKey(ds + ws + ls + tail) == (DecimalValue(ds), Upper(ls))
  {
    var after := ws + (ls + tail);
    assert ds + ws + ls + tail == ds + after;
    LettersOfParts(ws, ls, tail);
    assert after[0] == (if |ws| > 0 then ws[0] else ls[0]);
    ClassKeyAfterDigits(ds, after);
  }

  /** Behind a maximal run of digits, the key depends on `Letters`. */
  lemma ClassKeyAfterDigits(ds: string, after: string)
    requires |ds| > 0 && forall i :: 0 <= i < |ds| ==> IsDigit(ds[i])
    requires |after| == 0 || !IsDigit(after[0])
    ensures ClassKey(ds + after) == match Letters(after)
      case Some(ls) => (DecimalValue(ds), Upper(ls))
      case None => (UNMATCHED, ds + after)
  {
    RunOfPrefix(ds, after, IsDigit);
  }

  /** A name made of digits, optional blanks and then neither a blank nor
      a letter does not match: its key is (10**9, name). */
  lemma ClassKeyWithoutLetters(ds: string, ws: string, tail: string)
    requires |ds| > 0 && forall i :: 0 <= i < |ds| ==> IsDigit(ds[i])
    requires forall i :: 0 <= i < |ws| ==> IsSpace(ws[i])
    requires |tail| == 0 || (!IsLetter(tail[0]) && !IsSpace(tail[0]))
    requires |ws + tail| == 0 || !IsDigit((ws + tail)[0])
    ensures ClassKey(ds + ws + tail) == (UNMATCHED, ds + ws + tail)
  {
    var after := ws + tail;
    assert ds + ws + tail == ds + after;
    RunOfPrefix(ws, tail, IsSpace);
    assert Run(tail, IsLetter) == 0;
    assert Letters(after) == None;
    ClassKeyAfterDigits(ds, after);
  }

  /** Python's tuple comparison on keys. */
  predicate KeyLess(a: (int, string), b: (int, string))
  {
    a.0 < b.0 || (a.0 == b.0 && Less(a.1, b.1))
  }

  /** Numbered classes are ordered by their number whatever their letters
      ("2B" before "10A", "3 a" before "4B"), and they all come before
      names that do not start with a digit. */
  lemma ClassKeyOrder(ds1: string, ws1: string, ls1: string, t1: string,
                      ds2: string, ws2: string, ls2: string, t2: string, other: string)
    requires |ds1| > 0 && forall i :: 0 <= i < |ds1| ==> IsDigit(ds1[i])
    requires forall i :: 0 <= i < |ws1| ==> IsSpace(ws1[i])
    requires |ls1| > 0 && forall i :: 0 <= i < |ls1| ==> IsLetter(ls1[i])
    requires |t1| == 0 || !IsLetter(t1[0])
    requires |ds2| > 0 && forall i :: 0 <= i < |ds2| ==> IsDigit(ds2[i])
    requires forall i :: 0 <= i < |ws2| ==> IsSpace(ws2[i])
    requires |ls2| > 0 && forall i :: 0 <= i < |ls2| ==> IsLetter(ls2[i])
    requires |t2| == 0 || !IsLetter(t2[0])
    requires DecimalValue(ds1) < DecimalValue(ds2) < UNMATCHED
    requires |other| == 0 || !IsDigit(other[0])
    ensures KeyLess(ClassKey(ds1 + ws1 + ls1 + t1), ClassKey(ds2 + ws2 + ls2 + t2))
    ensures KeyLess(ClassKey(ds2 + ws2 + ls2 + t2), ClassKey(other))
  {
    ClassKeyOfParts(ds1, ws1, ls1, t1);
    ClassKeyOfParts(ds2, ws2, ls2, t2);
  }
}
