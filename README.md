# twintail core in Dafny

twintail is a small web front end for `tailscale serve`. This project models
the parts of it that decide what the user sees and what reaches the
`tailscale` command line:

- **Serve-status translation** (`Tailscale`). The decoded
  `tailscale serve status --json` document becomes one `ServiceView` per
  service. The name loses one leading `svc:`. The HTTPS URL comes from the
  first web host whose key contains `:443`. The proxy is the first non-empty
  handler proxy of that host. Go walks maps in an unspecified order, so the
  loops pick their next key with `:|`. The contracts speak of membership and
  existence (`IsTranslation`: there is an enumeration of the keys that the
  views follow), never of positions.
- **Localisation** (`Localization`).
  - `NewI18n` builds the translation table from a directory listing.
  - `I18n.T` is the lookup with its two-level fallback, and `GetTranslator`
    is a closure over it.
  - `ParseAcceptLanguage` is the first-match header scan.
  - `NormalizeLang` and `GetSupportedLanguages` are the language list.
- **Service-name guard** (`Validation`). Three ordered checks keep a name
  from becoming a shell or flag injection.
- **Request records** (`Constraints`, `ServiceRequest`, `EndpointRequest`).
  - The struct-tag rules (`required`, `oneof`, `numeric`, `excludesall`) are
    written out as predicates.
  - The `ToParams` conversions and `Default` values are modelled as functions.
- **Vite tags** (`ViteProd`, `ViteDev`). The HTML that loads the front-end
  bundle, from a manifest entry in production and from a dev-server origin in
  development.

`Wrappers` holds `Option`/`Result`, which stand for Go's `(value, error)`
pairs. `Strings` holds the functions of Go's `strings` package that twintail
calls, over strings as sequences of code points. Its `IndexOf` and `Join` are
not called by twintail: they exist to define and specify `Split`.

The source is imperative in some places, and the model keeps that form there:

- `GetServeStatus`, its host and handler scans, the `NewI18n` loading loop
  and the production `ViteTags` loop are methods with loop invariants. Each
  is proved against a specification predicate or function.
- `I18n` is a class whose `translations` field the loading loop fills.
- Everything else is pure functions and lemmas.

## Model

| member | source | states |
|---|---|---|
| Tailscale.GetServeStatus | services/tailscale.go:43-81 | A failed command or undecodable output is passed on as the error with no list. A decoded document always succeeds, with a list that is a translation of `Services`: one view per key, in some iteration order. |
| Tailscale.ViewOf | services/tailscale.go:57-77 | The loop body. The view's name is the key with one leading `svc:` removed. URL and proxy come from one web host containing `:443`, or are both empty when no host has it. |
| Tailscale.FirstProxy | services/tailscale.go:63-68 | The handler scan settles on some handler's non-empty proxy, or on "" exactly when no handler has one. |
| Tailscale.EnumerationLength | services/tailscale.go:56 | A duplicate-free listing of a key set is as long as the set. |
| Tailscale.TranslationLength | services/tailscale.go:55-80 | Exactly as many views as services. An empty `Services` gives the empty list. |
| Tailscale.EveryKeyViewed | services/tailscale.go:56-78 | Every service key has a view of it in the result. |
| Tailscale.EveryViewOfAKey | services/tailscale.go:56-78 | Every view in the result is a view of some service key. |
| Tailscale.NamesAreStrippedKeys | services/tailscale.go:57 | The set of view names equals the set of keys with `svc:` trimmed. |
| Tailscale.ViewFacts | services/tailscale.go:58-77 | The URL is non-empty iff some host contains `:443`, and is then `https://` plus that host minus a trailing `:443`. A proxy implies a URL. An empty `Web` gives empty URL and proxy. |
| Tailscale.SingleHttpsHost | services/tailscale.go:60-71 | When `host` is the only `:443` host of a service, whatever other hosts it has, the URL and the proxy both come from `host`. |
| Tailscale.SingleHandler | services/tailscale.go:63-68 | A host with a single handler yields that handler's proxy. |
| Tailscale.SingleService | services/tailscale.go:56-78 | A one-service document translates to exactly one view of that service. |
| Tailscale.WebAppLiterals | services/tailscale_test.go:28-32 | `example.com:443` is an HTTPS host whose URL is `https://example.com`, and `svc:web-app` names `web-app`. |
| Tailscale.WebAppView | services/tailscale_test.go:25-85 | The web-app service's view is name `web-app`, URL `https://example.com`, proxy `http://localhost:3000`. |
| Tailscale.WebAppTranslation | services/tailscale_test.go:25-85 | Every translation of the test document is exactly that one view. |
| Tailscale.PortSuffixLiterals | services/tailscale.go:61-62 | `a:4430` passes the substring test, and its URL keeps the whole host. |
| Tailscale.SubstringPortMatch | services/tailscale.go:57-62 | A service `a` on host `a:4430` is shown as `a` with URL `https://a:4430`, because the test is a substring test and not a suffix test. |
| Localization.LoadedLanguages | services/i18n.go:27-44 | After a successful load, a language is in the table iff some non-directory `.json` entry names it. Its messages are the decoded file of the last such entry, since a later one overwrites an earlier one. |
| Localization.LoadFailure | services/i18n.go:33-41 | Loading fails iff some catalogue entry is unreadable or malformed. The error is that of the first such entry. |
| Localization.PrefixFailure | services/i18n.go:33-41 | Once a prefix of the listing fails, the whole listing fails with the same error. |
| Localization.I18n.constructor | services/i18n.go:17-20 | A fresh instance has the given default language and an empty table. |
| Localization.NewI18n | services/i18n.go:16-47 | A listing error or the first bad catalogue aborts with that error and no instance. Otherwise the instance is fresh, holds the default language, and its table is exactly `LoadTable` of the listing. |
| Localization.I18n.T | services/i18n.go:49-66 | The message for `lang` when present. Otherwise the default language's message when present. Otherwise the key itself. `T` is total. |
| Localization.I18n.GetTranslator | services/i18n.go:68-72 | The returned function is defined on every key, reads only the instance, and agrees with `T(lang, key)` on every key. |
| Localization.I18n.UnknownLanguageFallsBack | services/i18n.go:53-63 | An unknown language translates exactly as the default language does. |
| Localization.Selects | services/i18n.go:83-88 | `ja` iff the tag starts with `ja`. `en` iff it starts with `en` but not `ja`. Nothing otherwise. |
| Localization.FirstSelected | services/i18n.go:80-91 | The scan's answer is always `en` or `ja`. |
| Localization.ParseAcceptLanguage | services/i18n.go:74-92 | Always `en` or `ja`. The empty header gives `en`. |
| Localization.FirstMatchDecides | services/i18n.go:80-88 | The first part whose tag starts with `ja` or `en` decides the answer, whatever follows it. |
| Localization.NoMatchIsEnglish | services/i18n.go:80-91 | With no matching part the answer is `en`. |
| Localization.PlainTag | services/i18n.go:81 | A part without `;` and without surrounding space is its own tag. |
| Localization.SplitFirst | services/i18n.go:79 | Splitting `first,rest` yields `first` followed by the parts of `rest`. |
| Localization.LeadingPartDecides | services/i18n.go:79-88 | A matching leading part decides the header. q-values in later parts never reorder it. |
| Localization.SupportedLeadDecides | internal/services/i18n_test.go:124-148 | A plain part that starts with `en` or `ja` gives that language, both as the whole header (`ja`, `ja-JP`, `en`, `en-US`) and as the first part of a longer header (`ja,en;q=0.9`, `en,ja;q=0.9`, `ja-JP,ja;q=0.9,en;q=0.8`). |
| Localization.NormalizeLang | services/i18n.go:94-101 | The result is a supported language. It equals the input iff the input is supported. Anything else becomes `en`. |
| Localization.NormalizeIdempotent | services/i18n.go:94-105 | Normalising twice is normalising once. `en` and `ja` are fixed points. A parsed header is already normal. |
| Validation.HasForbidden | internal/requests/validation.go:15-20 | True iff some character is `;`, space, newline, CR, backtick or NUL. |
| Validation.ValidateServiceName | internal/requests/validation.go:8-22 | Accepted iff non-empty, not led by `-`, and free of the forbidden characters. Otherwise the first failing check in the order empty, leading dash, character scan names the error. |
| Validation.NameCharsAccepted | internal/requests/validation.go:12-21 | A name of letters, digits, `-` and `.` not led by `-` is accepted. |
| Validation.AcceptedDash | internal/requests/validation_test.go:11 | `my-service` is accepted. |
| Validation.AcceptedDots | internal/requests/validation_test.go:12 | `my.service.name` is accepted. |
| Validation.RefusedExamples | internal/requests/validation_test.go:5-32 | The refused names of the test table, each with the error of its first failing check. |
| Constraints.NumericIsRequired | internal/requests/service.go:12 | A `numeric` value is never empty. |
| Constraints.NumericExamples | internal/requests/service_test.go:47-84 | `443` and `5432` are numeric; `abc` is not. |
| ServiceRequest.StoreServiceRequest.ToParams | internal/requests/service.go:23-30 | Name, protocol, port and destination are copied unchanged. |
| ServiceRequest.StoreServiceRequest.Default | internal/requests/service.go:32-37 | `https` and `443`, with empty name and destination, whatever the receiver holds. |
| ServiceRequest.DefaultCompletes | internal/requests/service.go:9-14 | The defaults alone are invalid. Adding a valid name and destination makes them valid. |
| ServiceRequest.ToParamsInjective | internal/requests/service.go:23-30 | Distinct requests give distinct parameters: no field is dropped or swapped. |
| ServiceRequest.NameCheckImpliesTag | internal/requests/service.go:10 | A name accepted by `ValidateServiceName` meets the tag rules. The converse fails: `-x` passes the tags but not the check. |
| ServiceRequest.AcceptedRequests | internal/requests/service_test.go:17-84 | The accepted requests of the validation test table. |
| ServiceRequest.RefusedRequests | internal/requests/service_test.go:17-84 | The refused requests: missing name, `ftp`, `abc` port, missing destination. |
| EndpointRequest.StoreEndpointRequest.ToParams | internal/requests/endpoint.go:22-29 | The service name is the argument. Protocol, port and destination are copied. |
| EndpointRequest.StoreEndpointRequest.Default | internal/requests/endpoint.go:31-36 | `https`, `443` and an empty destination. |
| EndpointRequest.DestroyEndpointRequest.ToParams | internal/requests/endpoint.go:51-58 | The service name is the argument. Protocol, port and destination are copied. |
| EndpointRequest.UpdateEndpointRequest.ToParams | internal/requests/endpoint.go:74-82 | Old and new destinations go to the same-named fields, never swapped. The other fields are copied. |
| EndpointRequest.UpdateIsTwoStores | internal/requests/endpoint.go:60-65 | An update is valid iff the add forms for its old and its new destination are both valid. |
| EndpointRequest.DestroyIsLaxer | internal/requests/endpoint.go:38-42 | Every valid add form is a valid remove form. Removal only checks presence: `ftp`/`abc` pass it. |
| EndpointRequest.StoreAndDestroyAgree | internal/requests/endpoint.go:22-58 | Add and remove forms with the same fields give the same parameters. |
| EndpointRequest.DefaultCompletes | internal/requests/endpoint.go:9-36 | The defaults alone are invalid. A destination makes them valid. |
| ViteProd.ViteTags | vite_prod.go:35-49 | An entry missing from the manifest renders as "". Otherwise the output is one link tag per CSS file, in order, then the script tag. With no CSS, the output is the script tag alone. |
| ViteProd.OffsetOfPrefix | vite_prod.go:43-46 | The position of the i-th link tag depends only on the files before it. |
| ViteProd.LinksLength | vite_prod.go:43-46 | The link block is exactly as long as its tags. |
| ViteProd.LinkAt | vite_prod.go:44-45 | The link tag for `css[i]` (with the `/static/dist/` prefix) occurs at its offset. |
| ViteProd.TagsOfEntry | vite_prod.go:43-47 | Every CSS file's link tag sits at its offset. The script tag follows the last one and ends the output. |
| ViteDev.Origin | vite_dev.go:11-14 | An empty environment value selects `http://localhost:5173`. A non-empty one is used verbatim. The origin is never empty. |
| ViteDev.ViteTags | vite_dev.go:10-19 | The client script tag for `origin/@vite/client` comes first, then a newline. The output ends with the script tag for `origin/entry`, the entry unescaped. |
| Strings.TrimPrefix | services/tailscale.go:57 | Removes one leading `svc:` when present, and otherwise leaves the string unchanged. |
| Strings.TrimSuffix | services/tailscale.go:62 | Removes one trailing `:443` when present, and otherwise leaves the string unchanged. |
| Strings.TrimSpace | services/i18n.go:81 | The result is `s` without its leading and trailing white space, and it neither starts nor ends with white space. |
| Strings.Split | services/i18n.go:79-81 | At least one piece. No piece contains the separator. The pieces rejoin to the input. |

## Left out

- Running `tailscale serve status --json` and decoding its JSON are left out. `GetServeStatus` receives their outcome as a `Result` input. `Services` being `null` is the empty map.
- The `TCP` member of a service is carried but never read, as in the source.
- Directory reading, file reading and JSON decoding in `NewI18n` are left out. Each listing entry carries its name, whether it is a directory, and the outcome of reading and decoding it.
- The `sync.RWMutex` of `I18n` is left out: the model is sequential.
- The `sync.Once` manifest loading in `vite_prod.go` is left out. The manifest is a parameter of `ViteTags`.
- The environment read in `vite_dev.go` is left out. The value is a parameter.
- `FromContext` (echo binding and validation calls) is left out. The tag rules are written as `Valid()` predicates instead.
- Constraints.Numeric: the go-playground validator is not part of this model. `numeric` follows that library's documented pattern `^[-+]?[0-9]+(\.[0-9]+)?$`, not its code.
- The translator operations exercised only by tests are left out: `GetServiceByName`, `AddEndpoint`, `RemoveEndpoint`, `UpdateEndpoint`, `ClearService`, `CheckInstalled`, and the sorted order their tests expect. Their source is not part of this model.
- Go map iteration order is left out. The model never fixes an order; it proves facts for every order.
- Strings are sequences of code points. UTF-8 byte handling and invalid encodings are left out.
- HTTP handlers, middleware, templates, static files, live reload and the front-end assets are left out. They are plumbing around the modelled functions.
- Localization.GetSupportedLanguages has no contract of its own: it is the constant list `["en", "ja"]`, and `NormalizeLang`'s contract states its membership.
