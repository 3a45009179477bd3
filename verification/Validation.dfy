/** Names and timestamps the servers accept. */
module Validation {

  const MAX_SKEW_SECS := 300

  predicate NameChar(c: char) {
    'a' <= c <= 'z' || 'A' <= c <= 'Z' || '0' <= c <= '9' || c == '-' || c == '_'
  }

  predicate NameText(name: string, limit: nat) {
    1 <= |name| <= limit && forall k :: 0 <= k < |name| ==> NameChar(name[k])
  }

  predicate ValidUsername(name: string) {
    NameText(name, 64)
  }

  predicate ValidGroupId(id: string) {
    NameText(id, 128)
  }

  function Repeated(c: char, n: nat): (text: string)
    ensures |text| == n && forall k :: 0 <= k < n ==> text[k] == c
  {
    if n == 0 then "" else Repeated(c, n - 1) + [c]
  }

  /** The repository's own examples of names, good and bad. */
  lemma UsernameExamples()
    ensures ValidUsername("valid_user123") && ValidUsername("user-name") && ValidUsername("user_name")
    ensures ValidUsername("123user") && ValidUsername(Repeated('a', 64)) && !ValidUsername(Repeated('a', 65))
    ensures !ValidUsername("") && !ValidUsername("invalid user") && !ValidUsername("user@domain")
    ensures !ValidUsername("user.name")
  {
    assert "invalid user"[7] == ' ' && "user@domain"[4] == '@' && "user.name"[4] == '.';
  }

  lemma GroupIdExamples()
    ensures ValidGroupId("valid-group-123") && ValidGroupId("group_name") && ValidGroupId(Repeated('a', 128))
    ensures !ValidGroupId("") && !ValidGroupId("invalid group") && !ValidGroupId("group@id")
    ensures !ValidGroupId(Repeated('a', 129))
  {
    assert "invalid group"[7] == ' ' && "group@id"[5] == '@';
  }

  /** A timestamp at most five minutes off the server's clock, either way. */
  predicate Timely(unix: int, timestamp: int) {
    -MAX_SKEW_SECS <= unix - timestamp <= MAX_SKEW_SECS
  }

  /** "name:text" can be read back in one way only, because no valid name holds a colon. */
  lemma JoinInjective(name: string, text: string, otherName: string, otherText: string)
    requires ValidUsername(name) && ValidUsername(otherName)
    requires name + ":" + text == otherName + ":" + otherText
    ensures name == otherName && text == otherText
  {
    var a, b := name + ":" + text, otherName + ":" + otherText;
    forall k | 0 <= k < |name| ensures a[k] != ':' {
      assert NameChar(name[k]);
    }
    forall k | 0 <= k < |otherName| ensures b[k] != ':' {
      assert NameChar(otherName[k]);
    }
    assert a[|name|] == ':' && b[|otherName|] == ':';
    assert |name| == |otherName|;
    assert a[..|name|] == name && b[..|otherName|] == otherName;
    assert a[|name| + 1..] == text && b[|otherName| + 1..] == otherText;
  }
}
