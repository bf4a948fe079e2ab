/** The adapter's cookie jar: cookies received from a host replace whatever
    was stored for that host, and a request to a host carries the cookies
    stored for it, or none. The store is shared by all requests; it is
    modelled as a sequential map from host name to cookie list. */
module Cookies {
  import opened Wrappers

  /** A cookie as received; its attributes play no part in the jar. */
  datatype Cookie = Cookie(name: string, value: string)

  type CookieStore = map<string, seq<Cookie>>

  /** `saveFromResponse`: the host's entry becomes `cookies`; no other entry
      changes. */
  function Save(store: CookieStore, host: string, cookies: seq<Cookie>): (updated: CookieStore)
    ensures host in updated && updated[host] == cookies
    ensures forall h :: h != host ==> (h in updated <==> h in store)
    ensures forall h :: h != host && h in store ==> updated[h] == store[h]
  {
    store[host := cookies]
  }

  /** `loadForRequest`: the host's cookies, or none when nothing was saved
      for it. */
  function Load(store: CookieStore, host: string): (cookies: seq<Cookie>)
  {
    if host in store then store[host] else []
  }

  /** Loading after saving gives back exactly what was saved. */
  lemma LoadAfterSave(store: CookieStore, host: string, cookies: seq<Cookie>)
    ensures Load(Save(store, host, cookies), host) == cookies
  {
  }

  /** Saving for one host changes what no other host loads. */
  lemma SaveIsolatesHosts(store: CookieStore, host: string, cookies: seq<Cookie>, other: string)
    requires other != host
    ensures Load(Save(store, host, cookies), other) == Load(store, other)
  {
  }

  /** A second save for a host fully replaces the first. */
  lemma SaveReplaces(store: CookieStore, host: string, first: seq<Cookie>, second: seq<Cookie>)
    ensures Save(Save(store, host, first), host, second) == Save(store, host, second)
  {
  }

  /** A host never saved for loads no cookies. */
  lemma UnseenHostLoadsNothing(host: string)
    ensures Load(map[], host) == []
  {
  }

  /** One `saveFromResponse` call. */
  datatype SaveEvent = SaveEvent(host: string, cookies: seq<Cookie>)

  /** The store after a sequence of saves, starting from `store`. */
  function Replay(store: CookieStore, events: seq<SaveEvent>): (result: CookieStore)
    decreases |events|
  {
    if |events| == 0 then store
    else
      var last := events[|events| - 1];
      Save(Replay(store, events[..|events| - 1]), last.host, last.cookies)
  }

  /** The cookies of the last save for `host` among `events`, if any. */
  function LastSaved(events: seq<SaveEvent>, host: string): (r: Option<seq<Cookie>>)
    ensures r.None? <==> forall i :: 0 <= i < |events| ==> events[i].host != host
    ensures r.Some? ==> exists i :: && 0 <= i < |events| && events[i] == SaveEvent(host, r.value)
                                    && forall j :: i < j < |events| ==> events[j].host != host
    decreases |events|
  {
    if |events| == 0 then None
    else if events[|events| - 1].host == host then Some(events[|events| - 1].cookies)
    else
      var r := LastSaved(events[..|events| - 1], host);
      LastSavedSkips(events, host, r);
      r
  }

  /** A last event for another host changes nothing about which save for
      `host` is the last one. */
  lemma LastSavedSkips(events: seq<SaveEvent>, host: string, r: Option<seq<Cookie>>)
    requires |events| > 0 && events[|events| - 1].host != host
    requires var init := events[..|events| - 1];
             && (r.None? <==> forall i :: 0 <= i < |init| ==> init[i].host != host)
             && (r.Some? ==> exists i :: && 0 <= i < |init| && init[i] == SaveEvent(host, r.value)
                                        && forall j :: i < j < |init| ==> init[j].host != host)
    ensures r.None? <==> forall i :: 0 <= i < |events| ==> events[i].host != host
    ensures r.Some? ==> exists i :: && 0 <= i < |events| && events[i] == SaveEvent(host, r.value)
                                    && forall j :: i < j < |events| ==> events[j].host != host
  {
    var init := events[..|events| - 1];
    assert forall i :: 0 <= i < |init| ==> init[i] == events[i];
    if r.Some? {
      var i :| && 0 <= i < |init| && init[i] == SaveEvent(host, r.value)
               && forall j :: i < j < |init| ==> init[j].host != host;
      assert events[i] == SaveEvent(host, r.value);
    }
  }

  /** After any sequence of saves from an empty jar, a host loads the
      cookies of the last save for it, and nothing when there was none. */
  lemma {:induction false} LoadAfterReplay(events: seq<SaveEvent>, host: string)
    ensures Load(Replay(map[], events), host) == LastSaved(events, host).GetOr([])
    decreases |events|
  {
    if |events| > 0 {
      var init := events[..|events| - 1];
      LoadAfterReplay(init, host);
      var last := events[|events| - 1];
      if last.host != host {
        SaveIsolatesHosts(Replay(map[], init), last.host, last.cookies, host);
      }
    }
  }
}
