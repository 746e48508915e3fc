/** The parts of Python's `str` the other modules rely on. */
module PythonText {

  /** `str.isspace` for one character. */
  predicate IsSpace(c: char) {
    var code := c as int;
    || 9 <= code <= 13 || 28 <= code <= 32 || code == 0x85 || code == 0xA0 || code == 0x1680
    || 0x2000 <= code <= 0x200A || code == 0x2028 || code == 0x2029 || code == 0x202F || code == 0x205F
    || code == 0x3000
  }

  /** Removes the characters of a class from both ends. */
  function StripWhere(text: string, drop: char -> bool): (r: string)
    ensures r != "" ==> !drop(r[0]) && !drop(r[|r| - 1])
  {
    if text == "" then ""
    else if drop(text[0]) then StripWhere(text[1..], drop)
    else if drop(text[|text| - 1]) then StripWhere(text[..|text| - 1], drop)
    else text
  }

  /** `str.strip()`. */
  function Strip(text: string): (r: string)
    ensures r != "" ==> !IsSpace(r[0]) && !IsSpace(r[|r| - 1])
  {
    StripWhere(text, c => IsSpace(c))
  }
}
