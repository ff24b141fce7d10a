/**
  The serve-status translation of `services/tailscale.go`: the decoded output
  of `tailscale serve status --json` becomes one `ServiceView` per service.

  Running the command and decoding its JSON are outside the model: the
  translation receives their outcome, a status document or the error they
  reported. Go ranges over maps in an unspecified order, so every map walk
  below picks its next key with `:|`, and the contracts speak of membership
  and existence, never of positions fixed by the document.
 */
module Tailscale {
  import opened Wrappers
  import opened Strings

  datatype Handler = Handler(Proxy: string)

  datatype WebEntry = WebEntry(Handlers: map<string, Handler>)

  datatype TCPEntry = TCPEntry(HTTP: bool, HTTPS: bool)

  datatype Service = Service(TCP: map<string, TCPEntry>, Web: map<string, WebEntry>)

  /** A `null` or absent `Services` member decodes to the empty map. */
  datatype ServeStatus = ServeStatus(Services: map<string, Service>)

  datatype ServiceView = ServiceView(Name: string, HTTPSUrl: string, Proxy: string)

  /** Why no status document reached the translation. */
  datatype StatusError =
    | CommandFailed(message: string)  // the command could not run or exited non-zero
    | InvalidJson(message: string)    // its output did not decode

  /** The host test of the web-entry scan: a substring test, not a suffix test. */
  predicate IsHttpsHost(host: string) {
    Contains(host, ":443")
  }

  /** The URL derived from an HTTPS host key. */
  function HttpsUrl(host: string): string {
    "https://" + TrimSuffix(host, ":443")
  }

  /** Some handler of `web` has a non-empty proxy. */
  ghost predicate HasProxy(web: WebEntry) {
    exists path :: path in web.Handlers && web.Handlers[path].Proxy != ""
  }

  /** `p` is a proxy the handler scan of `web` may settle on: the non-empty
      `Proxy` of some handler, or "" when no handler has one. */
  ghost predicate ProxyChoice(web: WebEntry, p: string) {
    if HasProxy(web) then
      p != "" && exists path :: path in web.Handlers && web.Handlers[path].Proxy == p
    else
      p == ""
  }

  /** Some web entry of `svc` has an HTTPS host key. */
  ghost predicate HasHttpsHost(svc: Service) {
    exists host :: host in svc.Web && IsHttpsHost(host)
  }

  /** `v` is a view the loop body may emit for the service `key` ↦ `svc`: the
      name is the key without one leading "svc:", and URL and proxy both come
      from one HTTPS web entry, or are empty when there is none. */
  ghost predicate ValidView(key: string, svc: Service, v: ServiceView) {
    && v.Name == TrimPrefix(key, "svc:")
    && if HasHttpsHost(svc) then
         exists host ::
           && host in svc.Web
           && IsHttpsHost(host)
           && v.HTTPSUrl == HttpsUrl(host)
           && ProxyChoice(svc.Web[host], v.Proxy)
       else
         v.HTTPSUrl == "" && v.Proxy == ""
  }

  /** `order` lists every service key exactly once, and `views[i]` is a view
      of the service `order[i]`. */
  ghost predicate TranslatedIn(services: map<string, Service>, views: seq<ServiceView>, order: seq<string>) {
    && Enumerates(services.Keys, order)
    && |order| == |views|
    && (forall i :: 0 <= i < |order| ==> order[i] in services && ValidView(order[i], services[order[i]], views[i]))
  }

  /** `order` lists the elements of `keys`, each exactly once. */
  ghost predicate Enumerates(keys: set<string>, order: seq<string>) {
    && (forall i, j :: 0 <= i < j < |order| ==> order[i] != order[j])
    && (forall k :: k in keys <==> k in order)
  }

  /** `views` is one view per service key, in some iteration order. */
  ghost predicate IsTranslation(services: map<string, Service>, views: seq<ServiceView>) {
    exists order :: TranslatedIn(services, views, order)
  }

  /** The handler scan: stops at the first handler (in map order) whose
      `Proxy` is non-empty. */
  method FirstProxy(web: WebEntry) returns (proxy: string)
    ensures ProxyChoice(web, proxy)
  {
    proxy := "";
    var paths := web.Handlers.Keys;
    while paths != {}
      invariant paths <= web.Handlers.Keys
      invariant forall p :: p in web.Handlers && p !in paths ==> web.Handlers[p].Proxy == ""
      invariant proxy == ""
      decreases paths
    {
      var path :| path in paths;
      if web.Handlers[path].Proxy != "" {
        proxy := web.Handlers[path].Proxy;
        break;
      }
      paths := paths - {path};
    }
  }

  /** The body of the service loop: strips the key, then scans the web
      entries and stops at the first HTTPS host (in map order). */
  method ViewOf(name: string, svc: Service) returns (v: ServiceView)
    ensures ValidView(name, svc, v)
  {
    var displayName := TrimPrefix(name, "svc:");
    var httpsUrl, proxy := "", "";
    var hosts := svc.Web.Keys;
    while hosts != {}
      invariant hosts <= svc.Web.Keys
      invariant forall h :: h in svc.Web && h !in hosts ==> !IsHttpsHost(h)
      invariant httpsUrl == "" && proxy == ""
      decreases hosts
    {
      var host :| host in hosts;
      if IsHttpsHost(host) {
        httpsUrl := HttpsUrl(host);
        proxy := FirstProxy(svc.Web[host]);
        break;
      }
      hosts := hosts - {host};
    }
    v := ServiceView(displayName, httpsUrl, proxy);
  }

  /** `GetServeStatus` after the command ran: an error from running or
      decoding passes through unchanged; a document gives one view per
      service key. */
  method GetServeStatus(output: Result<ServeStatus, StatusError>) returns (r: Result<seq<ServiceView>, StatusError>)
    ensures output.Failure? ==> r == Failure(output.error)
    ensures output.Success? ==> r.Success? && IsTranslation(output.value.Services, r.value)
  {
    if output.Failure? {
      return Failure(output.error);
    }
    var services := output.value.Services;
    var views: seq<ServiceView> := [];
    ghost var order: seq<string> := [];
    var remaining := services.Keys;
    while remaining != {}
      invariant remaining <= services.Keys
      invariant |order| == |views|
      invariant Enumerates(services.Keys - remaining, order)
      invariant forall i :: 0 <= i < |order| ==> order[i] in services && ValidView(order[i], services[order[i]], views[i])
      decreases remaining
    {
      var name :| name in remaining;
      var view := ViewOf(name, services[name]);
      views := views + [view];
      order := order + [name];
      remaining := remaining - {name};
    }
    assert TranslatedIn(services, views, order);
    r := Success(views);
  }

  /** An enumeration of a set is as long as the set is large. */
  lemma {:induction false} EnumerationLength(keys: set<string>, order: seq<string>)
    requires Enumerates(keys, order)
    ensures |keys| == |order|
  {
    if order != [] {
      var last := order[|order| - 1];
      var init := order[..|order| - 1];
      assert Enumerates(keys - {last}, init) by {
        forall k ensures k in keys - {last} <==> k in init {
          if k in init {
            var j :| 0 <= j < |init| && init[j] == k;
            assert order[j] != order[|order| - 1];
          }
          assert k in order ==> k in init || k == last;
        }
      }
      EnumerationLength(keys - {last}, init);
    }
  }

  /** As many views as service keys; an empty (or null) `Services` gives
      the empty list. */
  lemma TranslationLength(services: map<string, Service>, views: seq<ServiceView>)
    requires IsTranslation(services, views)
    ensures |views| == |services|
    ensures services == map[] ==> views == []
  {
    var order :| TranslatedIn(services, views, order);
    EnumerationLength(services.Keys, order);
  }

  /** Every service key has its view. */
  lemma EveryKeyViewed(services: map<string, Service>, views: seq<ServiceView>, key: string)
    requires IsTranslation(services, views)
    requires key in services
    ensures exists i :: 0 <= i < |views| && ValidView(key, services[key], views[i])
  {
    var order :| TranslatedIn(services, views, order);
    var i :| 0 <= i < |order| && order[i] == key;
    assert ValidView(order[i], services[order[i]], views[i]);
  }

  /** Every view is the view of some service key. */
  lemma EveryViewOfAKey(services: map<string, Service>, views: seq<ServiceView>, i: int)
    requires IsTranslation(services, views)
    requires 0 <= i < |views|
    ensures exists key :: key in services && ValidView(key, services[key], views[i])
  {
    var order :| TranslatedIn(services, views, order);
    assert ValidView(order[i], services[order[i]], views[i]);
  }

  /** The displayed names are exactly the keys with "svc:" stripped. */
  lemma NamesAreStrippedKeys(services: map<string, Service>, views: seq<ServiceView>)
    requires IsTranslation(services, views)
    ensures (set i | 0 <= i < |views| :: views[i].Name) == (set key | key in services :: TrimPrefix(key, "svc:"))
  {
    var order :| TranslatedIn(services, views, order);
    var names := set i | 0 <= i < |views| :: views[i].Name;
    var stripped := set key | key in services :: TrimPrefix(key, "svc:");
    forall n | n in names ensures n in stripped {
      var i :| 0 <= i < |views| && views[i].Name == n;
      assert ValidView(order[i], services[order[i]], views[i]);
    }
    forall n | n in stripped ensures n in names {
      var key :| key in services && TrimPrefix(key, "svc:") == n;
      var i :| 0 <= i < |order| && order[i] == key;
      assert ValidView(order[i], services[order[i]], views[i]);
    }
  }

  /** What one view says about its service: the URL is set exactly when some
      host key contains ":443", it then comes from such a host, the proxy is
      empty or the non-empty proxy of a handler of that same host, and a
      proxy is only ever reported together with a URL. */
  lemma ViewFacts(key: string, svc: Service, v: ServiceView)
    requires ValidView(key, svc, v)
    ensures v.HTTPSUrl != "" <==> HasHttpsHost(svc)
    ensures v.Proxy != "" ==> v.HTTPSUrl != ""
    ensures v.HTTPSUrl != "" ==>
              exists host ::
                && host in svc.Web && IsHttpsHost(host)
                && v.HTTPSUrl == "https://" + TrimSuffix(host, ":443")
                && (v.Proxy == "" || exists path :: path in svc.Web[host].Handlers && svc.Web[host].Handlers[path].Proxy == v.Proxy)
    ensures svc.Web == map[] ==> v.HTTPSUrl == "" && v.Proxy == ""
  {
  }

  /** A service whose only HTTPS host is `host` takes URL and proxy from
      it, whatever other hosts it serves. */
  lemma SingleHttpsHost(key: string, svc: Service, host: string, v: ServiceView)
    requires host in svc.Web && IsHttpsHost(host)
    requires forall h :: h in svc.Web && IsHttpsHost(h) ==> h == host
    requires ValidView(key, svc, v)
    ensures v.Name == TrimPrefix(key, "svc:")
    ensures v.HTTPSUrl == HttpsUrl(host) && ProxyChoice(svc.Web[host], v.Proxy)
  {
    var h :| h in svc.Web && IsHttpsHost(h) && v.HTTPSUrl == HttpsUrl(h) && ProxyChoice(svc.Web[h], v.Proxy);
  }

  /** The document of the success test: one service "svc:web-app" served on
      "example.com:443" with the handler "/" proxying to localhost:3000. */
  function WebAppStatus(): ServeStatus {
    ServeStatus(map["svc:web-app" := Service(map[], map["example.com:443" := WebAppEntry()])])
  }

  function WebAppEntry(): WebEntry {
    WebEntry(map["/" := Handler("http://localhost:3000")])
  }

  lemma WebAppLiterals()
    ensures IsHttpsHost("example.com:443")
    ensures HttpsUrl("example.com:443") == "https://example.com"
    ensures TrimPrefix("svc:web-app", "svc:") == "web-app"
  {
    assert OccursAt("example.com:443", ":443", 11);
    assert HasSuffix("example.com:443", ":443");
    assert TrimSuffix("example.com:443", ":443") == "example.com";
    assert HasPrefix("svc:web-app", "svc:");
  }

  /** A web entry with one handler settles on that handler's proxy. */
  lemma SingleHandler(path: string, proxy: string, p: string)
    requires ProxyChoice(WebEntry(map[path := Handler(proxy)]), p)
    ensures p == proxy
  {
    var web := WebEntry(map[path := Handler(proxy)]);
    if proxy != "" {
      assert path in web.Handlers;
      var q :| q in web.Handlers && web.Handlers[q].Proxy == p;
      assert q == path;
    }
  }

  /** A document with a single service translates to a single view of it. */
  lemma SingleService(key: string, svc: Service, views: seq<ServiceView>)
    requires IsTranslation(map[key := svc], views)
    ensures |views| == 1 && ValidView(key, svc, views[0])
  {
    var order :| TranslatedIn(map[key := svc], views, order);
    TranslationLength(map[key := svc], views);
    assert order[0] in map[key := svc];
  }

  /** The view of the web-app service is the one the test expects. */
  lemma WebAppView(v: ServiceView)
    requires ValidView("svc:web-app", Service(map[], map["example.com:443" := WebAppEntry()]), v)
    ensures v == ServiceView("web-app", "https://example.com", "http://localhost:3000")
  {
    WebAppLiterals();
    SingleHttpsHost("svc:web-app", Service(map[], map["example.com:443" := WebAppEntry()]), "example.com:443", v);
    SingleHandler("/", "http://localhost:3000", v.Proxy);
  }

  /** Every translation of that document is the single expected view. */
  lemma WebAppTranslation(views: seq<ServiceView>)
    requires IsTranslation(WebAppStatus().Services, views)
    ensures views == [ServiceView("web-app", "https://example.com", "http://localhost:3000")]
  {
    SingleService("svc:web-app", Service(map[], map["example.com:443" := WebAppEntry()]), views);
    WebAppView(views[0]);
  }

  lemma PortSuffixLiterals()
    ensures IsHttpsHost("a:4430")
    ensures HttpsUrl("a:4430") == "https://a:4430"
    ensures TrimPrefix("a", "svc:") == "a"
  {
    assert "a:4430"[1..5] == ":443";
    assert OccursAt("a:4430", ":443", 1);
    assert "a:4430"[2..][0] == '4';
    assert TrimSuffix("a:4430", ":443") == "a:4430";
  }

  /** Because the test is `Contains`, a host "a:4430" counts as HTTPS and is
      kept whole in the URL; a key without "svc:" is kept as the name. */
  lemma SubstringPortMatch(v: ServiceView)
    requires ValidView("a", Service(map[], map["a:4430" := WebEntry(map[])]), v)
    ensures v == ServiceView("a", "https://a:4430", "")
  {
    PortSuffixLiterals();
    SingleHttpsHost("a", Service(map[], map["a:4430" := WebEntry(map[])]), "a:4430", v);
  }
}
