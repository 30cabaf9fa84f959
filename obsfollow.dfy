/**
 * The OBS follower's decision rules with the websocket and i3 IPC calls taken out: the cache of
 * scene sources, the "Now Playing" text for a focused window or workspace, and which scene source
 * to enable when a workspace gets focus.
 */
module ObsFollow {
  import opened Wrappers
  import opened PyStr

  /** An entry of the `sceneItems` list of a GetSceneItemList response. */
  datatype SceneItem = SceneItem(sourceName: string, sceneItemId: int)

  /** One key/value pair of the cache dict; the dict is kept as its pairs in insertion order. */
  datatype Source = Source(name: string, itemId: int)

  predicate DistinctNames(c: seq<Source>) {
    forall i, j :: 0 <= i < j < |c| ==> c[i].name != c[j].name
  }

  function Names(c: seq<Source>): set<string> {
    set i | 0 <= i < |c| :: c[i].name
  }

  function IndexOfName(c: seq<Source>, name: string): (r: Option<nat>)
    ensures r.None? <==> forall i :: 0 <= i < |c| ==> c[i].name != name
    ensures r.Some? ==> r.value < |c| && c[r.value].name == name
    decreases |c|
  {
    if c == [] then None
    else if c[|c| - 1].name == name then Some(|c| - 1)
    else IndexOfName(c[..|c| - 1], name)
  }

  /** `d[name] = itemId`: a present key keeps its place and takes the new value; a new key goes last. */
  function Put(c: seq<Source>, name: string, itemId: int): (r: seq<Source>)
    requires DistinctNames(c)
    ensures DistinctNames(r)
    ensures Names(r) == Names(c) + {name}
  {
    match IndexOfName(c, name)
    case None =>
      var r := c + [Source(name, itemId)];
      assert forall i :: 0 <= i < |c| ==> r[i] == c[i];
      assert r[|c|].name == name;
      r
    case Some(j) =>
      var r := c[j := Source(name, itemId)];
      assert forall i :: 0 <= i < |c| ==> r[i].name == c[i].name;
      r
  }

  /** The value the cache holds for `name`. */
  function Lookup(c: seq<Source>, name: string): Option<int> {
    match IndexOfName(c, name)
    case None => None
    case Some(j) => Some(c[j].itemId)
  }

  /** The cache built from a scene's items: each source name paired with its scene item id, item by item. */
  function SourceCache(items: seq<SceneItem>): (c: seq<Source>)
    ensures DistinctNames(c)
    decreases |items|
  {
    if items == [] then []
    else
      var last := items[|items| - 1];
      Put(SourceCache(items[..|items| - 1]), last.sourceName, last.sceneItemId)
  }

  /** The id of the last scene item with the given name: the value a dict built left to right ends with. */
  function LastIdNamed(items: seq<SceneItem>, name: string): Option<int>
    decreases |items|
  {
    if items == [] then None
    else if items[|items| - 1].sourceName == name then Some(items[|items| - 1].sceneItemId)
    else LastIdNamed(items[..|items| - 1], name)
  }

  lemma LookupPut(c: seq<Source>, name: string, itemId: int, n: string)
    requires DistinctNames(c)
    ensures Lookup(Put(c, name, itemId), n) == if n == name then Some(itemId) else Lookup(c, n)
  {
    var r := Put(c, name, itemId);
    var at := IndexOfName(c, name);
    var pos := if at.Some? then at.value else |c|;
    assert pos < |r| && r[pos] == Source(name, itemId);
    assert forall i :: 0 <= i < |c| && i != pos ==> r[i] == c[i];
    if n == name {
      IndexUnique(r, pos);
    } else {
      match IndexOfName(c, n)
      case None =>
        assert forall i :: 0 <= i < |r| ==> r[i].name != n;
      case Some(j) =>
        assert j != pos;
        IndexUnique(r, j);
    }
  }

  /** Names being distinct, the search for an item's name finds that item. */
  lemma IndexUnique(c: seq<Source>, j: nat)
    requires DistinctNames(c) && j < |c|
    ensures IndexOfName(c, c[j].name) == Some(j)
  {
    var k := IndexOfName(c, c[j].name);
    assert k.Some?;
    assert forall i :: 0 <= i < |c| && c[i].name == c[j].name ==> i == j;
  }

  /**
   * The cache maps every source name of the response to the id of its last scene item with that
   * name (a later duplicate overwrites an earlier one), and holds no other name.
   */
  lemma {:induction false} SourceCacheLookup(items: seq<SceneItem>, n: string)
    ensures Lookup(SourceCache(items), n) == LastIdNamed(items, n)
    decreases |items|
  {
    if items != [] {
      var init := items[..|items| - 1];
      var last := items[|items| - 1];
      SourceCacheLookup(init, n);
      LookupPut(SourceCache(init), last.sourceName, last.sceneItemId, n);
    }
  }

  /** The position of the first scene item with the given name. */
  function FirstItemNamed(items: seq<SceneItem>, n: string): (r: Option<nat>)
    ensures r.None? <==> forall k :: 0 <= k < |items| ==> items[k].sourceName != n
    ensures r.Some? ==>
      r.value < |items| && items[r.value].sourceName == n
        && forall k :: 0 <= k < r.value ==> items[k].sourceName != n
    decreases |items|
  {
    if items == [] then None
    else
      var init := items[..|items| - 1];
      match FirstItemNamed(init, n)
      case Some(k) => Some(k)
      case None => if items[|items| - 1].sourceName == n then Some(|items| - 1) else None
  }

  /** Every source of `c` is named by some item, and `c` lists the names in the order they first occur. */
  predicate InFirstOccurrenceOrder(items: seq<SceneItem>, c: seq<Source>) {
    (forall i :: 0 <= i < |c| ==> FirstItemNamed(items, c[i].name).Some?)
    && forall i, j :: 0 <= i < j < |c| ==>
         FirstItemNamed(items, c[i].name).value < FirstItemNamed(items, c[j].name).value
  }

  /**
   * The cache lists its sources in the order their names first occur among the scene items:
   * a duplicate name keeps the place of its first occurrence.
   */
  lemma {:induction false} SourceCacheOrder(items: seq<SceneItem>)
    ensures InFirstOccurrenceOrder(items, SourceCache(items))
    decreases |items|
  {
    if items != [] {
      var init := items[..|items| - 1];
      var last := items[|items| - 1];
      var c0 := SourceCache(init);
      assert items == init + [last];
      SourceCacheOrder(init);
      if IndexOfName(c0, last.sourceName).None? {
        SourceCacheLookup(init, last.sourceName);
        LastIdNone(init, last.sourceName);
      }
      OrderStep(init, last, c0);
    }
  }

  /** Storing the next item keeps the cache in first-occurrence order. */
  lemma OrderStep(init: seq<SceneItem>, last: SceneItem, c0: seq<Source>)
    requires DistinctNames(c0) && InFirstOccurrenceOrder(init, c0)
    requires IndexOfName(c0, last.sourceName).None? ==> forall k :: 0 <= k < |init| ==> init[k].sourceName != last.sourceName
    ensures InFirstOccurrenceOrder(init + [last], Put(c0, last.sourceName, last.sceneItemId))
  {
    var items := init + [last];
    var c := Put(c0, last.sourceName, last.sceneItemId);
    forall i | 0 <= i < |c0| ensures FirstItemNamed(items, c0[i].name) == FirstItemNamed(init, c0[i].name) {
      FirstItemNamedSnoc(init, last, c0[i].name);
    }
    match IndexOfName(c0, last.sourceName)
    case None =>
      assert c == c0 + [Source(last.sourceName, last.sceneItemId)];
      FirstItemNamedSnoc(init, last, last.sourceName);
      assert FirstItemNamed(items, c[|c0|].name) == Some(|init|);
    case Some(p) =>
      assert forall i :: 0 <= i < |c0| ==> c[i].name == c0[i].name;
  }

  /** One more scene item: a name already seen keeps its first position. */
  lemma FirstItemNamedSnoc(items: seq<SceneItem>, last: SceneItem, n: string)
    ensures FirstItemNamed(items + [last], n) ==
      if FirstItemNamed(items, n).Some? then FirstItemNamed(items, n)
      else if last.sourceName == n then Some(|items|) else None
  {
    assert (items + [last])[..|items|] == items;
  }

  /** No item has the name exactly when the last-id search finds none. */
  lemma LastIdNone(items: seq<SceneItem>, n: string)
    requires LastIdNamed(items, n).None?
    ensures forall k :: 0 <= k < |items| ==> items[k].sourceName != n
    decreases |items|
  {
    if items != [] {
      var init := items[..|items| - 1];
      LastIdNone(init, n);
      assert forall k :: 0 <= k < |init| ==> init[k] == items[k];
    }
  }

  const SteamAppPrefix := "steam_app_"
  const NowPlayingLabel := "Now Playing: "

  /** `f"{value}"` for a table value that may be `None`. */
  function Shown(v: Option<string>): string {
    match v
    case Some(s) => s
    case None => "None"
  }

  /** `d.setdefault(k, dflt)`: the stored value, inserting `dflt` first when `k` is absent. */
  function SetDefault<K, V>(d: map<K, V>, k: K, dflt: V): (r: (V, map<K, V>))
    ensures k in r.1 && r.0 == r.1[k]
    ensures k in d ==> r.0 == d[k] && r.1 == d
    ensures k !in d ==> r.0 == dflt && r.1.Keys == d.Keys + {k}
    ensures forall k' :: k' in d ==> k' in r.1 && r.1[k'] == d[k']
  {
    if k in d then (d[k], d) else (dflt, d[k := dflt])
  }

  /** The i3/OBS glue: the Steam game names and the scene-source caches, as `i3OBSManager` keeps them. */
  class I3ObsManager {
    var knownSteamApps: map<string, Option<string>>
    var obsSources: seq<Source>
    var streamSources: seq<Source>

    ghost predicate Valid()
      reads this
    {
      DistinctNames(obsSources) && DistinctNames(streamSources)
    }

    /**
     * The state after start-up: the Steam index (see SteamApps.IndexSteamApps) and the caches of
     * the follower scene and the stream scene.
     */
    constructor (apps: map<string, Option<string>>, followerItems: seq<SceneItem>, streamItems: seq<SceneItem>)
      ensures Valid()
      ensures knownSteamApps == apps
      ensures obsSources == SourceCache(followerItems) && streamSources == SourceCache(streamItems)
    {
      knownSteamApps := apps;
      obsSources := SourceCache(followerItems);
      streamSources := SourceCache(streamItems);
    }

    /**
     * `rename_playing` for the focused container's window class or workspace name: a `steam_app_`
     * name shows the game's name, recording an unknown id as its own name; any other name is shown
     * capitalised. Returns the text sent to the NowPlaying source.
     */
    method RenamePlaying(workspaceName: string) returns (text: string)
      modifies this`knownSteamApps
      ensures StartsWith(workspaceName, SteamAppPrefix) ==>
        var suffix := workspaceName[|SteamAppPrefix|..];
        && suffix in knownSteamApps
        && (suffix in old(knownSteamApps) ==> knownSteamApps == old(knownSteamApps))
        && (suffix !in old(knownSteamApps) ==> knownSteamApps == old(knownSteamApps)[suffix := Some(suffix)])
        && text == NowPlayingLabel + Shown(knownSteamApps[suffix])
      ensures !StartsWith(workspaceName, SteamAppPrefix) ==>
        knownSteamApps == old(knownSteamApps) && text == NowPlayingLabel + Capitalize(workspaceName)
    {
      var shown: string;
      if StartsWith(workspaceName, SteamAppPrefix) {
        var suffix := workspaceName[|SteamAppPrefix|..];
        var (v, apps) := SetDefault(knownSteamApps, suffix, Some(suffix));
        knownSteamApps := apps;
        shown := Shown(v);
      } else {
        shown := Capitalize(workspaceName);
      }
      text := NowPlayingLabel + shown;
    }

    /**
     * `on_workspace_focus`: outside the allowlist nothing is sent; otherwise one SetSceneItemEnabled
     * request per cached source, in cache order, enabling exactly the sources named like the
     * focused output, so at most one source ends up enabled.
     */
    method OnWorkspaceFocus(workspaceNum: int, output: string, allowed: Option<seq<string>>)
      returns (requests: seq<(int, bool)>)
      requires Valid()
      ensures allowed.Some? && IntToString(workspaceNum) !in allowed.value ==> requests == []
      ensures !(allowed.Some? && IntToString(workspaceNum) !in allowed.value) ==>
        |requests| == |obsSources|
          && forall i :: 0 <= i < |obsSources| ==>
               requests[i] == (obsSources[i].itemId, obsSources[i].name == output)
      ensures forall i, j :: 0 <= i < j < |requests| ==> !(requests[i].1 && requests[j].1)
    {
      var focusedWorkspace := IntToString(workspaceNum);
      if allowed.Some? && focusedWorkspace !in allowed.value {
        return [];
      }
      requests := [];
      var i := 0;
      while i < |obsSources|
        invariant 0 <= i <= |obsSources| && |requests| == i
        invariant forall k :: 0 <= k < i ==> requests[k] == (obsSources[k].itemId, obsSources[k].name == output)
      {
        requests := requests + [(obsSources[i].itemId, obsSources[i].name == output)];
        i := i + 1;
      }
    }
  }
}
