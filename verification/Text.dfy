/** The parts of Python's string methods that several modules use. */
module Text {
  /** str.isspace for one character. */
  predicate IsSpace(c: char) {
    || '\t' <= c <= '\r' || '\U{1C}' <= c <= ' ' || c == '\U{85}' || c == '\U{A0}' || c == '\U{1680}'
    || '\U{2000}' <= c <= '\U{200A}' || '\U{2028}' <= c <= '\U{2029}'
    || c == '\U{202F}' || c == '\U{205F}' || c == '\U{3000}'
  }

  predicate IsBlank(line: string) { forall i :: 0 <= i < |line| ==> IsSpace(line[i]) }

  function LStrip(s: string): string {
    if s != [] && IsSpace(s[0]) then LStrip(s[1..]) else s
  }

  /** str.strip */
  function Strip(s: string): string
    decreases |s|
  {
    if s != [] && IsSpace(s[|s| - 1]) then Strip(s[..|s| - 1]) else LStrip(s)
  }

  /** What is stripped is white space on both sides, and none is left there. */
  lemma {:induction false} StripParts(s: string) returns (before: string, after: string)
    ensures s == before + Strip(s) + after && IsBlank(before) && IsBlank(after)
    ensures Strip(s) != "" ==> !IsSpace(Strip(s)[0]) && !IsSpace(Strip(s)[|Strip(s)| - 1])
    decreases |s|
  {
    if s != [] && IsSpace(s[|s| - 1]) {
      before, after := StripParts(s[..|s| - 1]);
      assert s == s[..|s| - 1] + [s[|s| - 1]];
      after := after + [s[|s| - 1]];
    } else {
      before := LStripParts(s);
      after := "";
      if LStrip(s) != "" { assert s[|s| - 1] == LStrip(s)[|LStrip(s)| - 1]; }
    }
  }

  lemma {:induction false} LStripParts(s: string) returns (before: string)
    ensures s == before + LStrip(s) && IsBlank(before)
    ensures LStrip(s) != "" ==> !IsSpace(LStrip(s)[0])
  {
    if s != [] && IsSpace(s[0]) {
      before := LStripParts(s[1..]);
      before := [s[0]] + before;
      assert s == [s[0]] + s[1..];
    } else {
      before := "";
    }
  }

  /** `a or b` */
  function Or(a: string, b: string): string { if a != "" then a else b }

  /** str.replace: left to right, occurrences that overlap an earlier one are not replaced. */
  function Replace(s: string, old_: string, new_: string): string
    requires old_ != ""
    decreases |s|
  {
    if s == [] then []
    else if old_ <= s then new_ + Replace(s[|old_|..], old_, new_)
    else [s[0]] + Replace(s[1..], old_, new_)
  }

  /** metadata.get(field) or "" */
  function Meta(metadata: map<string, string>, field: string): string {
    if field in metadata then metadata[field] else ""
  }
}
