/** Key names of the download repository (internal/repository/download):
    the two generation tags, the namespaces, and `getKey`, which joins
    parts with ':'. A generation is every key `ns:ver` or `ns:ver:*` of the
    four clearable namespaces. */
module Keys {
  import opened Redis

  const KeyVersion1: string := "v1"
  const KeyVersion2: string := "v2"
  const KeyActiveVersion: string := "av"      // string: the active generation
  const KeyDownloadMap: string := "dm"        // hash dm:ver, download id -> folder path
  const KeyFilesMap: string := "fm"           // hash fm:ver, file id -> url
  const KeyDownloadFilesMap: string := "dfm"  // hash dfm:ver:download_id, file id -> url
  const KeyPageContent: string := "pc"        // hash pc:ver, download id -> page
  const KeyFileStats: string := "fs"          // hash fs, file id -> counter
  const KeyUniqueDownload: string := "dl"     // string dl:user, set while a user is remembered
  const KeyEmpty: string := ""
  const KeySeparator: char := ':'
  const ScanCount: nat := 1000

  const ClearableKeys: seq<string> := [KeyDownloadMap, KeyFilesMap, KeyDownloadFilesMap, KeyPageContent]

  /** `strings.Join(parts, ":")`. */
  function GetKey(parts: seq<string>): string
  {
    if parts == [] then "" else if |parts| == 1 then parts[0] else parts[0] + [KeySeparator] + GetKey(parts[1..])
  }

  /** The position of the first `c` in `s`. */
  function IndexOf(s: string, c: char): (i: nat)
    requires c in s
    ensures i < |s| && s[i] == c && c !in s[..i]
  {
    if s[0] == c then 0 else IndexOf(s[1..], c) + 1
  }

  lemma {:induction false} IndexOfAt(s: string, c: char, k: nat)
    requires k < |s| && s[k] == c && c !in s[..k]
    ensures IndexOf(s, c) == k
  {
    if k > 0 {
      assert s[0] == s[..k][0];
      assert s[1..][..k - 1] == s[1..k] && s[1..k] == s[..k][1..];
      IndexOfAt(s[1..], c, k - 1);
    }
  }

  /** `strings.Split(key, ":")`, the inverse of `GetKey`. */
  function SplitKey(key: string): (parts: seq<string>)
    ensures |parts| > 0
    decreases |key|
  {
    if KeySeparator !in key then [key]
    else
      var i := IndexOf(key, KeySeparator);
      [key[..i]] + SplitKey(key[i + 1..])
  }

  /** Splitting a key built by `GetKey` gives back its parts, as long as no part
      holds the separator. */
  lemma {:induction false} SplitGetKey(parts: seq<string>)
    requires |parts| > 0
    requires forall i :: 0 <= i < |parts| ==> KeySeparator !in parts[i]
    ensures SplitKey(GetKey(parts)) == parts
  {
    if |parts| > 1 {
      var key := GetKey(parts);
      var p0 := parts[0];
      assert key == p0 + [KeySeparator] + GetKey(parts[1..]);
      assert key[..|p0|] == p0;
      IndexOfAt(key, KeySeparator, |p0|);
      assert key[|p0| + 1..] == GetKey(parts[1..]);
      SplitGetKey(parts[1..]);
      assert parts == [p0] + parts[1..];
    }
  }

  lemma GetKey2(a: string, b: string)
    ensures GetKey([a, b]) == a + ":" + b
  {
    assert [a, b][1..] == [b];
  }

  lemma GetKey3(a: string, b: string, c: string)
    ensures GetKey([a, b, c]) == a + ":" + b + ":" + c
  {
    assert [a, b, c][1..] == [b, c];
    GetKey2(b, c);
  }

  /** The hash `ns:ver` of a generation. */
  function GenKey(ns: string, ver: string): (k: string)
    ensures k == ns + ":" + ver
  {
    GetKey2(ns, ver);
    GetKey([ns, ver])
  }

  /** The per-download hash `dfm:ver:id`. */
  function DownloadFilesKey(ver: string, id: string): (k: string)
    ensures k == GenKey(KeyDownloadFilesMap, ver) + ":" + id
  {
    GetKey3(KeyDownloadFilesMap, ver, id);
    GetKey([KeyDownloadFilesMap, ver, id])
  }

  /** The SCAN pattern `ns:ver:*`. */
  function GenPattern(ns: string, ver: string): (p: string)
    requires '*' !in ns && '*' !in ver
    ensures IsPrefixPattern(p) && PatternPrefix(p) == GenKey(ns, ver) + ":"
  {
    GetKey3(ns, ver, "*");
    var p := GetKey([ns, ver, "*"]);
    assert p[..|p| - 1] == ns + ":" + ver + ":";
    p
  }

  /** The SCAN pattern `fs:*` of clearDeletedFileCounters. */
  function FileStatsPattern(): (p: string)
    ensures IsPrefixPattern(p) && PatternPrefix(p) == KeyFileStats + ":"
  {
    GetKey2(KeyFileStats, "*");
    var p := GetKey([KeyFileStats, "*"]);
    assert p[..|p| - 1] == "fs:";
    p
  }

  /** The keys clearOldData removes for one namespace: the hash `ns:ver`
      and everything under `ns:ver:`. */
  predicate ClearedBy(k: string, ns: string, ver: string)
  {
    k == GenKey(ns, ver) || HasPrefix(k, GenKey(ns, ver) + ":")
  }

  /** The keys of generation `ver`. */
  predicate InGeneration(k: string, ver: string)
  {
    ClearedBy(k, KeyDownloadMap, ver) || ClearedBy(k, KeyFilesMap, ver) ||
    ClearedBy(k, KeyDownloadFilesMap, ver) || ClearedBy(k, KeyPageContent, ver)
  }

  predicate IsVersion(v: string)
  {
    v == KeyVersion1 || v == KeyVersion2
  }

  function Other(v: string): string
  {
    if v == KeyVersion1 then KeyVersion2 else KeyVersion1
  }

  /** getVersions' decision on the value read from `av` ("" when it is
      absent): (active, standby). A stored tag is kept; anything else is reset
      to generation v1. */
  function Versions(stored: string): (pair: (string, string))
    ensures IsVersion(pair.0) && pair.1 == Other(pair.0) && pair.0 == Other(pair.1) && pair.0 != pair.1
    ensures IsVersion(stored) <==> pair.0 == stored
    ensures !IsVersion(stored) ==> pair.0 == KeyVersion1
  {
    if stored == KeyVersion1 then (KeyVersion1, KeyVersion2)
    else if stored == KeyVersion2 then (KeyVersion2, KeyVersion1)
    else (KeyVersion1, KeyVersion2)
  }

  /** The value getVersions reads from `av`: the string, or "" when absent. */
  function StoredVersion(ks: Keyspace): string
  {
    if KeyActiveVersion in ks && ks[KeyActiveVersion].Str? then ks[KeyActiveVersion].s else KeyEmpty
  }

  /** The generation tag a key carries in its name, if it has the shape of
      a generation key: `dfm:` keys carry it at 4..6, the others at 3..5. */
  function TagOf(k: string): string
  {
    if |k| >= 6 && k[..4] == "dfm:" then k[4..6] else if |k| >= 5 then k[3..5] else ""
  }

  lemma TagOfCleared(k: string, ns: string, ver: string)
    requires IsVersion(ver) && ns in ClearableKeys && ClearedBy(k, ns, ver)
    ensures TagOf(k) == ver && |k| >= 2
    ensures (k[0] == 'd' && k[1] == 'm') || (k[0] == 'f' && k[1] == 'm') ||
            (k[0] == 'd' && k[1] == 'f') || (k[0] == 'p' && k[1] == 'c')
  {
    var p := GenKey(ns, ver);
    assert HasPrefix(k, p) by {
      if k != p { assert k[..|p|] == (k[..|p| + 1])[..|p|]; }
    }
    assert k[..|p|] == p;
    assert forall i :: 0 <= i < |p| ==> k[i] == p[i] by {
      forall i | 0 <= i < |p| ensures k[i] == p[i] { assert k[..|p|][i] == p[i]; }
    }
    if ns == KeyDownloadFilesMap {
      assert k[..4] == p[..4] == "dfm:";
      assert k[4..6] == p[4..6] == ver;
    } else {
      assert k[1] != 'f';
      assert k[3..5] == p[3..5] == ver;
    }
  }

  /** The tag and the first two letters of any key of generation `ver`. */
  lemma GenerationShape(k: string, ver: string)
    requires IsVersion(ver)
    ensures InGeneration(k, ver) ==> TagOf(k) == ver && |k| >= 2
    ensures InGeneration(k, ver) ==>
      (k[0] == 'd' && k[1] == 'm') || (k[0] == 'f' && k[1] == 'm') ||
      (k[0] == 'd' && k[1] == 'f') || (k[0] == 'p' && k[1] == 'c')
  {
    if ClearedBy(k, KeyDownloadMap, ver) {
      TagOfCleared(k, KeyDownloadMap, ver);
    } else if ClearedBy(k, KeyFilesMap, ver) {
      TagOfCleared(k, KeyFilesMap, ver);
    } else if ClearedBy(k, KeyDownloadFilesMap, ver) {
      TagOfCleared(k, KeyDownloadFilesMap, ver);
    } else if ClearedBy(k, KeyPageContent, ver) {
      TagOfCleared(k, KeyPageContent, ver);
    }
  }

  /** The two generations share no key: clearing or writing one never
      touches the other. */
  lemma GenerationsDisjoint(k: string)
    ensures !(InGeneration(k, KeyVersion1) && InGeneration(k, KeyVersion2))
  {
    GenerationShape(k, KeyVersion1);
    GenerationShape(k, KeyVersion2);
  }

  /** Neither the version key, the counter hash, any `fs:*` key nor any `dl:*`
      key belongs to a generation. */
  lemma OutsideGenerations(k: string, ver: string)
    requires IsVersion(ver)
    requires k == KeyActiveVersion || k == KeyFileStats || HasPrefix(k, "fs:") || HasPrefix(k, "dl:")
    ensures !InGeneration(k, ver)
  {
    GenerationShape(k, ver);
    if HasPrefix(k, "fs:") { assert k[..3] == "fs:"; assert k[0] == k[..3][0] && k[1] == k[..3][1]; }
    if HasPrefix(k, "dl:") { assert k[..3] == "dl:"; assert k[0] == k[..3][0] && k[1] == k[..3][1]; }
  }

  /** The keys saveNewData writes all belong to the generation it writes. */
  lemma WrittenKeysInGeneration(ver: string, id: string)
    ensures InGeneration(GenKey(KeyDownloadMap, ver), ver)
    ensures InGeneration(GenKey(KeyPageContent, ver), ver)
    ensures InGeneration(GenKey(KeyFilesMap, ver), ver)
    ensures InGeneration(DownloadFilesKey(ver, id), ver)
  {
    var k := DownloadFilesKey(ver, id);
    var p := GenKey(KeyDownloadFilesMap, ver) + ":";
    assert k[..|p|] == p;
  }

  /** The four hashes saveNewData writes are pairwise distinct keys. */
  lemma WrittenKeysDistinct(ver: string, id: string)
    ensures GenKey(KeyDownloadMap, ver) != GenKey(KeyPageContent, ver)
    ensures GenKey(KeyDownloadMap, ver) != GenKey(KeyFilesMap, ver)
    ensures GenKey(KeyPageContent, ver) != GenKey(KeyFilesMap, ver)
    ensures DownloadFilesKey(ver, id) != GenKey(KeyDownloadMap, ver)
    ensures DownloadFilesKey(ver, id) != GenKey(KeyPageContent, ver)
    ensures DownloadFilesKey(ver, id) != GenKey(KeyFilesMap, ver)
  {
    assert GenKey(KeyDownloadMap, ver)[0] == 'd' && GenKey(KeyDownloadMap, ver)[1] == 'm';
    assert GenKey(KeyPageContent, ver)[0] == 'p';
    assert GenKey(KeyFilesMap, ver)[0] == 'f';
    assert DownloadFilesKey(ver, id)[0] == 'd' && DownloadFilesKey(ver, id)[1] == 'f';
  }

  /** A key that no namespace of ClearableKeys clears is outside the
      generation. */
  lemma NotClearedOutside(k: string, ver: string)
    requires forall j :: 0 <= j < |ClearableKeys| ==> !ClearedBy(k, ClearableKeys[j], ver)
    ensures !InGeneration(k, ver)
  {
    assert !ClearedBy(k, ClearableKeys[0], ver) && !ClearedBy(k, ClearableKeys[1], ver);
    assert !ClearedBy(k, ClearableKeys[2], ver) && !ClearedBy(k, ClearableKeys[3], ver);
  }
}
