/**
  `ValidateServiceName` of `internal/requests/validation.go`: the guard a
  service name passes before it is put on a `tailscale` command line.
 */
module Validation {
  import opened Wrappers
  import opened Strings

  /** The three ways a name is refused, in the order they are checked. */
  datatype NameError = Required | LeadingDash | InvalidCharacter {
    function Message(): string {
      match this
      case Required => "service name is required"
      case LeadingDash => "service name must not start with '-'"
      case InvalidCharacter => "service name contains invalid character"
    }
  }

  /** The characters the scan refuses: ';', space, newline, carriage
      return, backtick and NUL. */
  predicate IsForbidden(c: char) {
    c == ';' || c == ' ' || c == '\n' || c == '\r' || c == '`' || c == '\0'
  }

  /** The character scan: true at the first forbidden character. */
  function HasForbidden(name: string): (found: bool)
    ensures found <==> exists i :: 0 <= i < |name| && IsForbidden(name[i])
    decreases |name|
  {
    if name == [] then false
    else if IsForbidden(name[0]) then true
    else
      var rest := HasForbidden(name[1..]);
      assert forall i :: 1 <= i < |name| ==> name[i] == name[1..][i - 1];
      rest
  }

  /** `ValidateServiceName`: `None` accepts the name; otherwise the first
      failing check, in the order empty, leading dash, character scan,
      names the error. */
  function ValidateServiceName(name: string): (err: Option<NameError>)
    ensures err == None <==>
              && name != ""
              && name[0] != '-'
              && forall i :: 0 <= i < |name| ==> !IsForbidden(name[i])
    ensures name == "" ==> err == Some(Required)
    ensures name != "" && name[0] == '-' ==> err == Some(LeadingDash)
    ensures name != "" && name[0] != '-' && (exists i :: 0 <= i < |name| && IsForbidden(name[i]))
            ==> err == Some(InvalidCharacter)
  {
    if name == "" then Some(Required)
    else if HasPrefix(name, "-") then Some(LeadingDash)
    else if HasForbidden(name) then Some(InvalidCharacter)
    else None
  }

  /** Letters, digits, '-' and '.': the characters of ordinary service names. */
  predicate IsNameChar(c: char) {
    ('a' <= c <= 'z') || ('A' <= c <= 'Z') || ('0' <= c <= '9') || c == '-' || c == '.'
  }

  /** A non-empty name of letters, digits, '-' and '.' that does not start
      with '-' is accepted: '-' and '.' are allowed anywhere but first. */
  lemma NameCharsAccepted(name: string)
    requires name != [] && name[0] != '-'
    requires forall i :: 0 <= i < |name| ==> IsNameChar(name[i])
    ensures ValidateServiceName(name) == None
  {
    assert forall i :: 0 <= i < |name| ==> !IsForbidden(name[i]) by {
      forall i | 0 <= i < |name| ensures !IsForbidden(name[i]) {
        assert IsNameChar(name[i]);
      }
    }
  }

  /** An accepted name of the validation tests: '-' inside a name. */
  lemma AcceptedDash()
    ensures ValidateServiceName("my-service") == None
  {
    NameCharsAccepted("my-service");
  }

  /** An accepted name of the validation tests: '.' inside a name. */
  lemma AcceptedDots()
    ensures ValidateServiceName("my.service.name") == None
  {
    NameCharsAccepted("my.service.name");
  }

  /** The refused names of the validation tests, each with the error the
      first failing check gives. */
  lemma RefusedExamples()
    ensures ValidateServiceName("") == Some(Required)
    ensures ValidateServiceName("-malicious") == Some(LeadingDash)
    ensures ValidateServiceName("name;rm -rf /") == Some(InvalidCharacter)
    ensures ValidateServiceName("my service") == Some(InvalidCharacter)
    ensures ValidateServiceName("name\nmalicious") == Some(InvalidCharacter)
    ensures ValidateServiceName("name\rmalicious") == Some(InvalidCharacter)
    ensures ValidateServiceName("name`id`") == Some(InvalidCharacter)
    ensures ValidateServiceName("name\0malicious") == Some(InvalidCharacter)
  {
    assert IsForbidden("name;rm -rf /"[4]);
    assert IsForbidden("my service"[2]);
    assert IsForbidden("name\nmalicious"[4]);
    assert IsForbidden("name\rmalicious"[4]);
    assert IsForbidden("name`id`"[4]);
    assert IsForbidden("name\0malicious"[4]);
  }
}
