/**
  The endpoint forms of `internal/requests/endpoint.go`: adding, removing
  and changing one (protocol, port, destination) route of a service, their
  field rules, their conversion to translator parameters, and the defaults
  of the add form.
 */
module EndpointRequest {
  import opened Constraints

  /** The parameters of one endpoint command of the translator. */
  datatype EndpointParams = EndpointParams(
    ServiceName: string,
    Protocol: string,
    ExposePort: string,
    Destination: string)

  /** The parameters of the remove-then-add update of the translator. */
  datatype UpdateEndpointParams = UpdateEndpointParams(
    ServiceName: string,
    Protocol: string,
    ExposePort: string,
    OldDestination: string,
    NewDestination: string)

  datatype StoreEndpointRequest = StoreEndpointRequest(
    Protocol: string,
    ExposePort: string,
    Destination: string)
  {
    /** The `validate` tags: a known protocol, a numeric port, a destination. */
    predicate Valid() {
      && Required(Protocol) && Protocol in Protocols
      && Required(ExposePort) && Numeric(ExposePort)
      && Required(Destination)
    }

    /** `ToParams`: the service name comes from the route, the rest from
        the form. */
    function ToParams(serviceName: string): (p: EndpointParams)
      ensures p.ServiceName == serviceName
      ensures p.Protocol == Protocol && p.ExposePort == ExposePort && p.Destination == Destination
    {
      EndpointParams(serviceName, Protocol, ExposePort, Destination)
    }

    /** `Default`: protocol "https" on port "443" with no destination. */
    function Default(): (d: StoreEndpointRequest)
      ensures d.Protocol == "https" && d.ExposePort == "443" && d.Destination == ""
    {
      StoreEndpointRequest("https", "443", "")
    }
  }

  datatype DestroyEndpointRequest = DestroyEndpointRequest(
    Protocol: string,
    ExposePort: string,
    Destination: string)
  {
    /** The `validate` tags: only presence is checked. */
    predicate Valid() {
      Required(Protocol) && Required(ExposePort) && Required(Destination)
    }

    /** `ToParams`: the same conversion as the add form. */
    function ToParams(serviceName: string): (p: EndpointParams)
      ensures p.ServiceName == serviceName
      ensures p.Protocol == Protocol && p.ExposePort == ExposePort && p.Destination == Destination
    {
      EndpointParams(serviceName, Protocol, ExposePort, Destination)
    }
  }

  datatype UpdateEndpointRequest = UpdateEndpointRequest(
    Protocol: string,
    ExposePort: string,
    OldDestination: string,
    NewDestination: string)
  {
    /** The `validate` tags: a known protocol, a numeric port, both
        destinations present. */
    predicate Valid() {
      && Required(Protocol) && Protocol in Protocols
      && Required(ExposePort) && Numeric(ExposePort)
      && Required(OldDestination) && Required(NewDestination)
    }

    /** `ToParams`: old and new destination go to the same-named fields. */
    function ToParams(serviceName: string): (p: UpdateEndpointParams)
      ensures p.ServiceName == serviceName
      ensures p.Protocol == Protocol && p.ExposePort == ExposePort
      ensures p.OldDestination == OldDestination && p.NewDestination == NewDestination
    {
      UpdateEndpointParams(serviceName, Protocol, ExposePort, OldDestination, NewDestination)
    }
  }

  /** An update is valid exactly when adding the old route and adding the
      new route would both be valid: the update form carries the add form's
      rules for each destination it names. */
  lemma UpdateIsTwoStores(u: UpdateEndpointRequest)
    ensures u.Valid() <==>
              && StoreEndpointRequest(u.Protocol, u.ExposePort, u.OldDestination).Valid()
              && StoreEndpointRequest(u.Protocol, u.ExposePort, u.NewDestination).Valid()
  {
  }

  /** Every valid add form is a valid remove form, but removal checks
      presence only: an unknown protocol and a non-numeric port pass. */
  lemma DestroyIsLaxer(s: StoreEndpointRequest)
    ensures s.Valid() ==> DestroyEndpointRequest(s.Protocol, s.ExposePort, s.Destination).Valid()
    ensures DestroyEndpointRequest("ftp", "abc", "x").Valid()
    ensures !StoreEndpointRequest("ftp", "abc", "x").Valid()
  {
  }

  /** Removing and re-adding the same route name the same endpoint: the two
      conversions agree field by field. */
  lemma StoreAndDestroyAgree(serviceName: string, protocol: string, port: string, destination: string)
    ensures StoreEndpointRequest(protocol, port, destination).ToParams(serviceName)
            == DestroyEndpointRequest(protocol, port, destination).ToParams(serviceName)
  {
  }

  /** The defaults need only a destination to become a valid add form. */
  lemma DefaultCompletes(r: StoreEndpointRequest, destination: string)
    requires Required(destination)
    ensures !r.Default().Valid()
    ensures r.Default().(Destination := destination).Valid()
  {
    NumericExamples();
  }
}
