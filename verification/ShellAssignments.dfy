/** Which tokens are assignments: `^([a-zA-Z0-9_]+)=(\S+)$` with its character classes written out. */
module ShellAssignments {
  import opened Options
  import opened ShellParse

  const LOWER := "abcdefghijklmnopqrstuvwxyz"
  const UPPER := "ABCDEFGHIJKLMNOPQRSTUVWXYZ"
  const DIGITS := "0123456789"
  const SPACES := " \t\n\r\U{0B}\U{0C}"

  predicate InClass(c: char) {
    c in LOWER || c in UPPER || c in DIGITS || c == '_'
  }

  predicate IsKey(key: string) {
    key != "" && forall i :: 0 <= i < |key| ==> InClass(key[i])
  }

  predicate IsValue(value: string) {
    value != "" && forall i :: 0 <= i < |value| ==> value[i] !in SPACES
  }

  /** The `$` of the expression also matches before one final newline. */
  predicate Assigns(token: string, key: string, value: string) {
    IsKey(key) && IsValue(value) && (token == key + "=" + value || token == key + "=" + value + "\n")
  }

  // ---- the character classes ----

  lemma LowerIff(c: char)
    ensures c in LOWER <==> 'a' <= c <= 'z'
  {
    if 'a' <= c <= 'z' {
      assert LOWER[c as int - 97] == c;
    }
  }

  lemma UpperIff(c: char)
    ensures c in UPPER <==> 'A' <= c <= 'Z'
  {
    if 'A' <= c <= 'Z' {
      assert UPPER[c as int - 65] == c;
    }
  }

  lemma DigitsIff(c: char)
    ensures c in DIGITS <==> '0' <= c <= '9'
  {
    if '0' <= c <= '9' {
      assert DIGITS[c as int - 48] == c;
    }
  }

  lemma SpacesIff(c: char)
    ensures c in SPACES <==> IsSpace(c)
  {
  }

  lemma ClassIff(c: char)
    ensures InClass(c) <==> IsWordChar(c)
  {
    LowerIff(c);
    UpperIff(c);
    DigitsIff(c);
  }

  lemma ValueIff(value: string)
    ensures IsValue(value) <==> value != "" && NoSpace(value)
  {
    forall c: char ensures c in SPACES <==> IsSpace(c) {
      SpacesIff(c);
    }
  }

  lemma KeyIff(key: string)
    ensures IsKey(key) <==> key != "" && forall i :: 0 <= i < |key| ==> IsWordChar(key[i])
  {
    hide InClass, IsWordChar;
    forall i | 0 <= i < |key| ensures InClass(key[i]) <==> IsWordChar(key[i]) {
      ClassIff(key[i]);
    }
  }

  // ---- the expression ----

  lemma WordPrefixOf(key: string, tail: string)
    requires forall i :: 0 <= i < |key| ==> IsWordChar(key[i])
    requires tail != "" && !IsWordChar(tail[0])
    ensures WordPrefix(key + tail) == |key|
  {
    assert (key + tail)[|key|] == tail[0];
    assert forall i :: 0 <= i < |key| ==> (key + tail)[i] == key[i];
  }

  lemma LastIsNoNewline(value: string)
    requires value != "" && NoSpace(value)
    ensures value[|value| - 1] != '\n'
  {
    assert !IsSpace(value[|value| - 1]);
    assert (10 as char) == '\n';
  }

  /** The expression matches exactly assignments, and gives key and value. */
  lemma EnvMatchIff(token: string, key: string, value: string)
    ensures EnvMatch(token) == Some((key, value)) <==> Assigns(token, key, value)
  {
    KeyIff(key);
    ValueIff(value);
    hide IsKey, IsValue;
    if Assigns(token, key, value) {
      AssignmentMatches(token, key, value);
    }
    if EnvMatch(token) == Some((key, value)) {
      MatchIsAssignment(token, key, value);
    }
  }

  lemma AssignmentMatches(token: string, key: string, value: string)
    requires key != "" && (forall i :: 0 <= i < |key| ==> IsWordChar(key[i])) && value != "" && NoSpace(value)
    requires token == key + "=" + value || token == key + "=" + value + "\n"
    ensures EnvMatch(token) == Some((key, value))
  {
    LastIsNoNewline(value);
    var tail := token[|key| + 1..];
    assert tail == value || tail == value + "\n";
    assert token == key + ("=" + tail);
    WordPrefixOf(key, "=" + tail);
    hide WordPrefix, NoSpace;
    assert token[..|key|] == key;
    assert tail == value + "\n" ==> tail[..|tail| - 1] == value;
  }

  lemma MatchIsAssignment(token: string, key: string, value: string)
    requires EnvMatch(token) == Some((key, value))
    ensures key != "" && (forall i :: 0 <= i < |key| ==> IsWordChar(key[i])) && value != "" && NoSpace(value)
    ensures token == key + "=" + value || token == key + "=" + value + "\n"
  {
    hide NoSpace;
    var n := WordPrefix(token);
    assert token == token[..n] + "=" + token[n + 1..];
    var tail := token[n + 1..];
    if tail != value {
      assert tail == value + "\n";
    }
  }
}
