/**
  `StoreServiceRequest` of `internal/requests/service.go`: the form that
  advertises a new service, its field rules, its conversion to the
  parameters of the serve translator, and its form defaults.
 */
module ServiceRequest {
  import opened Constraints
  import Validation

  /** The parameters the translator turns into
      `serve --service=svc:<name> --<protocol>=<port> <destination>`. */
  datatype AdvertiseServiceParams = AdvertiseServiceParams(
    ServiceName: string,
    Protocol: string,
    ExposePort: string,
    Destination: string)

  datatype StoreServiceRequest = StoreServiceRequest(
    ServiceName: string,
    Protocol: string,
    ExposePort: string,
    Destination: string)
  {
    /** The `validate` tags of the four fields. */
    predicate Valid() {
      && Required(ServiceName) && ExcludesAll(ServiceName, ShellChars)
      && Required(Protocol) && Protocol in Protocols
      && Required(ExposePort) && Numeric(ExposePort)
      && Required(Destination) && ExcludesAll(Destination, ShellChars)
    }

    /** `ToParams`: every field is carried over unchanged. */
    function ToParams(): (p: AdvertiseServiceParams)
      ensures p.ServiceName == ServiceName
      ensures p.Protocol == Protocol
      ensures p.ExposePort == ExposePort
      ensures p.Destination == Destination
    {
      AdvertiseServiceParams(ServiceName, Protocol, ExposePort, Destination)
    }

    /** `Default`: the empty form shows protocol "https" on port "443",
        whatever the receiver holds. */
    function Default(): (d: StoreServiceRequest)
      ensures d.Protocol == "https" && d.ExposePort == "443"
      ensures d.ServiceName == "" && d.Destination == ""
    {
      StoreServiceRequest("", "https", "443", "")
    }
  }

  /** The defaults are not a valid request by themselves, but they become
      one as soon as a name and destination meeting their rules are filled
      in: the default protocol and port pass their own rules. */
  lemma DefaultCompletes(r: StoreServiceRequest, name: string, destination: string)
    requires Required(name) && ExcludesAll(name, ShellChars)
    requires Required(destination) && ExcludesAll(destination, ShellChars)
    ensures !r.Default().Valid()
    ensures r.Default().(ServiceName := name, Destination := destination).Valid()
  {
    NumericExamples();
  }

  /** The conversion loses nothing: different requests give different
      parameters. */
  lemma ToParamsInjective(r1: StoreServiceRequest, r2: StoreServiceRequest)
    requires r1.ToParams() == r2.ToParams()
    ensures r1 == r2
  {
  }

  /** A name `ValidateServiceName` accepts meets the tag rules of the
      `ServiceName` field: both refuse the same characters. The tag rules
      alone let a leading '-' through, the name check does not. */
  lemma NameCheckImpliesTag(name: string)
    ensures Validation.ValidateServiceName(name).None? ==> Required(name) && ExcludesAll(name, ShellChars)
    ensures Required("-x") && ExcludesAll("-x", ShellChars) && Validation.ValidateServiceName("-x").Some?
  {
    assert forall c :: Validation.IsForbidden(c) <==> c in ShellChars;
  }

  /** The accepted requests of the validation tests: the HTTPS default shape
      and both TCP protocols. */
  lemma AcceptedRequests()
    ensures StoreServiceRequest("my-service", "https", "443", "http://localhost:8080").Valid()
    ensures StoreServiceRequest("my-service", "tcp", "5432", "localhost:5432").Valid()
    ensures StoreServiceRequest("my-service", "tcp+tls", "5432", "localhost:5432").Valid()
  {
    NumericExamples();
  }

  /** The refused requests of the same tests: a missing name, a protocol
      outside the set, a non-numeric port and a missing destination. */
  lemma RefusedRequests()
    ensures !StoreServiceRequest("", "https", "443", "http://localhost:8080").Valid()
    ensures !StoreServiceRequest("my-service", "ftp", "443", "http://localhost:8080").Valid()
    ensures !StoreServiceRequest("my-service", "https", "abc", "http://localhost:8080").Valid()
    ensures !StoreServiceRequest("my-service", "https", "443", "").Valid()
  {
    NumericExamples();
  }
}
