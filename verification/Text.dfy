/**
 Characters and strings.TrimSpace, for ASCII text.
 */
module Text {

  predicate IsDigit(c: char) {
    '0' <= c <= '9'
  }

  predicate IsSpace(c: char) {
    c == ' ' || '\t' <= c <= '\r'
  }

  function TrimSpace(s: string): (t: string)
    ensures t != "" ==> !IsSpace(t[0]) && !IsSpace(t[|t| - 1])
    ensures t == "" <==> forall c | c in s :: IsSpace(c)
  {
    if s == "" then ""
    else if IsSpace(s[0]) then TrimSpace(s[1..])
    else if IsSpace(s[|s| - 1]) then TrimSpace(s[..|s| - 1])
    else s
  }

  // What is left is the text between the leading and the trailing spaces.
  lemma {:induction false} TrimCutsSpaces(s: string) returns (i: nat, j: nat)
    ensures i <= j <= |s| && TrimSpace(s) == s[i..j]
    ensures forall k | 0 <= k < |s| && !(i <= k < j) :: IsSpace(s[k])
    decreases s
  {
    if s == "" || (!IsSpace(s[0]) && !IsSpace(s[|s| - 1])) {
      i, j := 0, |s|;
    } else if IsSpace(s[0]) {
      var rest := s[1..];
      var a, b := TrimCutsSpaces(rest);
      i, j := a + 1, b + 1;
      assert TrimSpace(s) == TrimSpace(rest) == rest[a..b] == s[i..j];
      forall k | 0 <= k < |s| && !(i <= k < j)
        ensures IsSpace(s[k])
      {
        assert k == 0 || s[k] == rest[k - 1];
      }
    } else {
      var rest := s[..|s| - 1];
      i, j := TrimCutsSpaces(rest);
      assert TrimSpace(s) == TrimSpace(rest) == rest[i..j] == s[i..j];
      forall k | 0 <= k < |s| && !(i <= k < j)
        ensures IsSpace(s[k])
      {
        assert k == |s| - 1 || s[k] == rest[k];
      }
    }
  }
}
