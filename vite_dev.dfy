/**
  `ViteTags` of `vite_dev.go`: the two module scripts that load an entry
  point from the Vite development server. The environment variable
  `VITE_DEV_SERVER_URL` is passed in as `env`.
 */
module ViteDev {
  import opened Strings

  /** The development server used when `env` is empty. */
  const DefaultOrigin: string := "http://localhost:5173"

  /** The origin the scripts are loaded from. */
  function Origin(env: string): (origin: string)
    ensures env == "" ==> origin == DefaultOrigin
    ensures env != "" ==> origin == env
    ensures origin != ""
  {
    if env == "" then DefaultOrigin else env
  }

  /** A module script loading `src`, inserted unescaped. */
  function ScriptTag(src: string): string {
    "<script type=\"module\" src=\"" + src + "\"></script>"
  }

  /** `ViteTags`: the Vite client script, a newline, then the script of
      the entry, both from the chosen origin. */
  function ViteTags(env: string, entry: string): (html: string)
    ensures |html| == |ScriptTag(Origin(env) + "/@vite/client")| + 1 + |ScriptTag(Origin(env) + "/" + entry)|
    ensures HasPrefix(html, ScriptTag(Origin(env) + "/@vite/client"))
    ensures html[|ScriptTag(Origin(env) + "/@vite/client")|] == '\n'
    ensures HasSuffix(html, ScriptTag(Origin(env) + "/" + entry))
  {
    var origin := Origin(env);
    var client := ScriptTag(origin + "/@vite/client");
    var main := ScriptTag(origin + "/" + entry);
    var html := client + "\n" + main;
    assert html[..|client|] == client;
    assert html[|html| - |main|..] == main;
    html
  }
}
