/** `clean_excel_string`, applied to every cell before export: a string
    loses every character in `\x00-\x1F` and `\x7F-\x9F` (the C0 and C1
    control ranges), any other value passes through untouched. */
module ExcelCleaning {

  /** A table cell: a Python `str`, or some other value of type `V`. */
  datatype Cell<V> = Text(text: string) | NonText(value: V)

  /** A character the substitution `[\x00-\x1F\x7F-\x9F]` removes. */
  predicate IsControl(c: char)
  {
    (0x00 <= c as int <= 0x1F) || (0x7F <= c as int <= 0x9F)
  }

  predicate NoControl(s: string)
  {
    forall i | 0 <= i < |s| :: !IsControl(s[i])
  }

  /** `re.sub(r"[\x00-\x1F\x7F-\x9F]", "", s)`. */
  function StripControl(s: string): (r: string)
    ensures NoControl(r)
    ensures |r| <= |s|
    ensures forall c | c in s && !IsControl(c) :: c in r
    ensures forall c | c in r :: c in s
  {
    if s == [] then []
    else if IsControl(s[0]) then StripControl(s[1..])
    else [s[0]] + StripControl(s[1..])
  }

  /** Removal works character by character: it commutes with
      concatenation, so the kept characters stay in their order. */
  lemma {:induction false} StripControlAppend(a: string, b: string)
    ensures StripControl(a + b) == StripControl(a) + StripControl(b)
  {
    if a == [] {
      assert a + b == b;
    } else {
      assert (a + b)[0] == a[0];
      assert (a + b)[1..] == a[1..] + b;
      StripControlAppend(a[1..], b);
    }
  }

  /** A string without control characters comes back unchanged. */
  lemma {:induction false} StripControlKeepsClean(s: string)
    requires NoControl(s)
    ensures StripControl(s) == s
  {
    if s != [] {
      StripControlKeepsClean(s[1..]);
    }
  }

  /** The number of control characters in `s`. */
  function ControlCount(s: string): nat
  {
    if s == [] then 0 else (if IsControl(s[0]) then 1 else 0) + ControlCount(s[1..])
  }

  /** Exactly the control characters are removed: the length drops by
      their number. */
  lemma {:induction false} StripControlLength(s: string)
    ensures |StripControl(s)| == |s| - ControlCount(s)
  {
    if s != [] {
      StripControlLength(s[1..]);
    }
  }

  /** `clean_excel_string(val)`. */
  function CleanExcelString<V>(cell: Cell<V>): (r: Cell<V>)
    ensures cell.NonText? ==> r == cell
    ensures cell.Text? ==> r.Text? && NoControl(r.text)
    ensures cell.Text? ==> |r.text| <= |cell.text|
    ensures cell.Text? ==> r == Text(StripControl(cell.text))
  {
    match cell
    case Text(s) => Text(StripControl(s))
    case NonText(_) => cell
  }

  /** Cleaning a cleaned cell changes nothing. */
  lemma CleanExcelStringIdempotent<V>(cell: Cell<V>)
    ensures CleanExcelString(CleanExcelString(cell)) == CleanExcelString(cell)
  {
    if cell.Text? {
      StripControlKeepsClean(StripControl(cell.text));
    }
  }
}
