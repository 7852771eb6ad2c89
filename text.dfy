/** The two string operations the workout forms use: String.prototype.trim
    and the case-insensitive comparison built on String.prototype.toLowerCase. */
module Text {

  /** The characters `trim` removes: ECMAScript WhiteSpace (tab, vertical
      tab, form feed, space, no-break space, byte-order mark and the Unicode
      space separators) and LineTerminator (line feed, carriage return, line
      and paragraph separators). */
  predicate IsSpace(c: char) {
    || c == '\U{9}' || c == '\U{A}' || c == '\U{B}' || c == '\U{C}' || c == '\U{D}'
    || c == '\U{20}' || c == '\U{A0}' || c == '\U{1680}'
    || ('\U{2000}' <= c <= '\U{200A}')
    || c == '\U{2028}' || c == '\U{2029}' || c == '\U{202F}' || c == '\U{205F}'
    || c == '\U{3000}' || c == '\U{FEFF}'
  }

  ghost predicate AllSpace(s: seq<char>) {
    forall k :: 0 <= k < |s| ==> IsSpace(s[k])
  }

  /** The index of the first character that is not white space. */
  function ContentStart(s: seq<char>): (i: nat)
    ensures i <= |s|
    ensures AllSpace(s[..i])
    ensures i < |s| ==> !IsSpace(s[i])
  {
    if s == [] || !IsSpace(s[0]) then 0
    else
      var i := 1 + ContentStart(s[1..]);
      assert s[..i] == [s[0]] + s[1..][..i - 1];
      i
  }

  /** The index just past the last character that is not white space. */
  function ContentEnd(s: seq<char>): (j: nat)
    ensures j <= |s|
    ensures AllSpace(s[j..])
    ensures j > 0 ==> !IsSpace(s[j - 1])
  {
    if s == [] || !IsSpace(s[|s| - 1]) then |s|
    else
      var j := ContentEnd(s[..|s| - 1]);
      assert s[j..] == s[..|s| - 1][j..] + [s[|s| - 1]];
      j
  }

  /** `s.trim()`: `s` without its leading and trailing white space. */
  function Trim(s: seq<char>): (r: seq<char>)
    ensures r == [] || (!IsSpace(r[0]) && !IsSpace(r[|r| - 1]))
    ensures exists i :: 0 <= i <= |s| - |r| && s[i..i + |r|] == r && AllSpace(s[..i]) && AllSpace(s[i + |r|..])
  {
    var i := ContentStart(s);
    var rest := s[i..];
    var j := ContentEnd(rest);
    var r := rest[..j];
    assert s[i..i + |r|] == r;
    assert s[i + |r|..] == rest[j..];
    assert r != [] ==> r[0] == s[i] && r[|r| - 1] == rest[j - 1];
    r
  }

  /** A string trims to nothing exactly when it is all white space. */
  lemma TrimEmpty(s: seq<char>)
    ensures Trim(s) == [] <==> AllSpace(s)
  {
    var r := Trim(s);
    var i :| 0 <= i <= |s| - |r| && s[i..i + |r|] == r && AllSpace(s[..i]) && AllSpace(s[i + |r|..]);
    if r == [] {
      forall k | 0 <= k < |s| ensures IsSpace(s[k]) {
        if k < i {
          assert s[k] == s[..i][k];
        } else {
          assert s[k] == s[i..][k - i];
        }
      }
    } else {
      assert s[i] == r[0];
    }
  }

  /** Trimming twice is trimming once. */
  lemma TrimIdempotent(s: seq<char>)
    ensures Trim(Trim(s)) == Trim(s)
  {
    var r := Trim(s);
    if r != [] {
      assert ContentStart(r) == 0;
      assert r[0..] == r;
      assert ContentEnd(r) == |r|;
      assert r[..|r|] == r;
    }
  }

  /** One character of `toLowerCase`: the ASCII and Latin-1 capitals. */
  function LowerChar(c: char): char {
    if 'A' <= c <= 'Z' || ('\U{C0}' <= c <= '\U{DE}' && c != '\U{D7}') then
      (c as int + 32) as char
    else c
  }

  /** `s.toLowerCase()`, character by character. */
  function Lower(s: seq<char>): (r: seq<char>)
    ensures |r| == |s|
    ensures forall k :: 0 <= k < |s| ==> r[k] == LowerChar(s[k])
  {
    if s == [] then [] else [LowerChar(s[0])] + Lower(s[1..])
  }

  /** Equality of two strings ignoring case. */
  predicate SameIgnoringCase(a: seq<char>, b: seq<char>) {
    Lower(a) == Lower(b)
  }

  /** Lower-casing is idempotent, so lower-cased names compare alike. */
  lemma LowerIdempotent(s: seq<char>)
    ensures Lower(Lower(s)) == Lower(s)
  {
    forall k | 0 <= k < |s| ensures LowerChar(LowerChar(s[k])) == LowerChar(s[k]) {
    }
  }

  /** Case-insensitive equality identifies a name with its lower-case form. */
  lemma SameAsLowered(s: seq<char>)
    ensures SameIgnoringCase(s, Lower(s))
  {
    LowerIdempotent(s);
  }
}
