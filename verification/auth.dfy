/** Credential discovery (`lcu/src/auth.rs`): find the client process, read
    the port and the remoting token from its launch arguments, and build the
    HTTP Basic credential from the token.

    The process table is a parameter: a sequence of processes in the order in
    which the process map is iterated. That order comes from a hash map and
    is unspecified; the model takes whatever order it is given and, like
    `find_map`, picks the first matching process in it. */
module Auth {
  import opened Wrappers
  import opened Text
  import opened LcuErrors
  import Base64
  import Utf8

  const PORT_ARG_NAME: string := "app-port"
  const KEY_ARG_NAME: string := "remoting-auth-token"

  /** The supported platforms. Any other platform is refused before this
      code runs. */
  datatype Os = Windows | Macos

  const WINDOWS_PROC_NAME: string := "LeagueClientUx.exe"
  const MACOS_PROC_NAME: string := "LeagueClientUx"

  /** `Os::get_proc_name`: the executable name the platform's client runs
      under. Each name belongs to exactly one platform. */
  function ProcName(os: Os): (r: string)
    ensures r == WINDOWS_PROC_NAME <==> os == Windows
    ensures r == MACOS_PROC_NAME <==> os == Macos
  {
    assert |WINDOWS_PROC_NAME| != |MACOS_PROC_NAME|;
    match os
    case Macos => MACOS_PROC_NAME
    case Windows => WINDOWS_PROC_NAME
  }

  /** The two platforms look for different executables, the Windows one
      being the macOS one with an `.exe` suffix. */
  lemma ProcNames()
    ensures ProcName(Windows) == "LeagueClientUx.exe"
    ensures ProcName(Macos) == "LeagueClientUx"
    ensures ProcName(Windows) == ProcName(Macos) + ".exe"
    ensures forall os1: Os, os2: Os :: ProcName(os1) == ProcName(os2) ==> os1 == os2
  {
    assert ProcName(Windows) != ProcName(Macos) by {
      assert |ProcName(Windows)| != |ProcName(Macos)|;
    }
  }

  /** A running process: its executable name and its argument vector. */
  datatype Process = Process(name: string, cmd: seq<string>)

  /** The credential: the API port and the remoting token. */
  datatype Auth = Auth(port: string, key: string) {
    /** `Auth::port`: the stored port, unchanged. */
    function Port(): (r: string)
      ensures r == port
    {
      port
    }
  }

  /** How `Auth::new` can end without a credential: the `ApiError` it
      returns, or the panic of a failed `expect`, with its message. */
  datatype AuthFailure = Api(error: ApiError) | Panic(message: string)

  // ---------------------------------------------------------------------
  // Launch arguments

  /** `a` splits as: `d` dashes, then `key`, `=`, `value`, and then either
      nothing or a further `=` and anything. `key` does not start with a dash
      and neither part contains `=`. */
  ghost predicate ArgSplitsAt(a: string, d: int, key: string, value: string) {
    var e := d + |key| + 1 + |value|;
    && 0 <= d <= e <= |a|
    && (forall j :: 0 <= j < d ==> a[j] == '-')
    && (key == [] || key[0] != '-')
    && '=' !in key && '=' !in value
    && a[d..e] == key + "=" + value
    && (e == |a| || a[e] == '=')
  }

  /** The key and the value of an argument that, with its leading dashes
      removed, is `t`. */
  function SplitArg(t: string): (string, string)
    requires '=' in t
  {
    var p := SplitOnce(t, '=').value;
    (p.0, FirstField(p.1, '='))
  }

  /** One launch argument as `parse_cmd` reads it: `None` when it holds no
      `=`; otherwise the text before the first `=` once the leading dashes
      are gone, and the text from there up to the next `=`. */
  function ParseArg(a: string): (r: Option<(string, string)>)
    ensures r.None? <==> '=' !in a
    ensures r.Some? ==> exists d :: ArgSplitsAt(a, d, r.value.0, r.value.1)
  {
    if '=' !in a then None
    else
      var t := TrimStartMatches(a, '-');
      ParseArgSplits(a, t);
      Some(SplitArg(t))
  }

  lemma ParseArgSplits(a: string, t: string)
    requires '=' in a && t == TrimStartMatches(a, '-')
    ensures '=' in t
    ensures ArgSplitsAt(a, |a| - |t|, SplitArg(t).0, SplitArg(t).1)
  {
    var d := |a| - |t|;
    assert '=' in t by {
      var i :| 0 <= i < |a| && a[i] == '=';
      assert t[i - d] == a[i];
    }
    SplitArgShape(t);
    var (key, value) := SplitArg(t);
    ShiftedSplit(a, d, t, key, value);
  }

  /** `t` is what follows `d` dashes in `a`, does not start with a dash, and
      splits as `key`, `=`, `value`, then the end or another `=`. */
  ghost predicate SplitsAfterDashes(a: string, d: int, t: string, key: string, value: string) {
    var e := |key| + 1 + |value|;
    && 0 <= d <= |a| && t == a[d..]
    && (forall j :: 0 <= j < d ==> a[j] == '-')
    && (t == [] || t[0] != '-')
    && e <= |t|
    && '=' !in key && '=' !in value
    && t[..e] == key + "=" + value
    && (e == |t| || t[e] == '=')
    && (key == [] || key[0] == t[0])
  }

  lemma ShiftedSplit(a: string, d: int, t: string, key: string, value: string)
    requires SplitsAfterDashes(a, d, t, key, value)
    ensures ArgSplitsAt(a, d, key, value)
  {
    var e := d + |key| + 1 + |value|;
    assert a[d..e] == t[..e - d];
    if e < |a| {
      assert a[e] == t[e - d];
    }
  }

  /** The split of `t`: `key`, `=`, `value`, then the end or another `=`;
      the key is empty or starts where `t` does. */
  lemma SplitArgShape(t: string)
    requires '=' in t
    ensures var (key, value) := SplitArg(t);
      var e := |key| + 1 + |value|;
      && e <= |t|
      && '=' !in key && '=' !in value
      && t[..e] == key + "=" + value
      && (e == |t| || t[e] == '=')
      && (key == [] || key[0] == t[0])
      && (key == [] ==> t[0] == '=')
  {
    var p := SplitOnce(t, '=').value;
    var key, rest := p.0, p.1;
    var value := FirstField(rest, '=');
    var e := |key| + 1 + |value|;
    assert t == key + "=" + rest;
    assert key + "=" + value == t[..e];
    if e < |t| {
      assert t[e] == rest[|value|];
    }
  }

  /** Conversely, every argument of that shape is parsed into that key and
      value: the shape determines the entry. */
  lemma ParseArgOfShape(a: string, d: int, key: string, value: string)
    requires ArgSplitsAt(a, d, key, value)
    ensures ParseArg(a) == Some((key, value))
  {
    ShapeDashes(a, d, key, value);
    ShapeKey(a, d, key, value);
    ShapeValue(a, d, key, value);
    assert SplitArg(a[d..]) == (key, value);
  }

  lemma ShapeDashes(a: string, d: int, key: string, value: string)
    requires ArgSplitsAt(a, d, key, value)
    ensures '=' in a && TrimStartMatches(a, '-') == a[d..]
  {
    assert a[d + |key|] == (key + "=" + value)[|key|];
    assert a[d] == (key + "=" + value)[0];
    TrimStartMatchesOf(a, '-', d);
  }

  lemma ShapeKey(a: string, d: int, key: string, value: string)
    requires ArgSplitsAt(a, d, key, value)
    ensures SplitOnce(a[d..], '=') == Some((key, a[d + |key| + 1..]))
  {
    var e := d + |key| + 1 + |value|;
    var rest := a[d + |key| + 1..];
    SliceSplit(a, d, e);
    assert a[d..] == key + "=" + rest;
    SplitOnceOf(key, '=', rest);
  }

  lemma ShapeValue(a: string, d: int, key: string, value: string)
    requires ArgSplitsAt(a, d, key, value)
    ensures FirstField(a[d + |key| + 1..], '=') == value
  {
    var e := d + |key| + 1 + |value|;
    assert a[d + |key| + 1..e] == (key + "=" + value)[|key| + 1..];
    SliceSplit(a, d + |key| + 1, e);
    FirstFieldOf(value, '=', a[e..]);
  }

  /** The key of an optional entry. */
  function EntryKey<K, V>(e: Option<(K, V)>): Option<K> {
    match e
    case None => None
    case Some(p) => Some(p.0)
  }

  /** No entry after position `i` has the same key as it. */
  ghost predicate LastOfItsKey<K, V>(entries: seq<Option<(K, V)>>, i: int)
    requires 0 <= i < |entries|
  {
    forall j :: i < j < |entries| ==> EntryKey(entries[j]) != EntryKey(entries[i])
  }

  /** One insertion step. */
  function Insert<K, V>(m: map<K, V>, e: Option<(K, V)>): map<K, V> {
    match e
    case None => m
    case Some(p) => m[p.0 := p.1]
  }

  /** Inserting optional entries into an empty map, in order. */
  function InsertAll<K, V>(entries: seq<Option<(K, V)>>): map<K, V>
    decreases |entries|
  {
    if |entries| == 0 then map[]
    else Insert(InsertAll(entries[..|entries| - 1]), entries[|entries| - 1])
  }

  /** A key is in the map exactly when some entry has it. */
  lemma {:induction false} InsertAllKeys<K, V>(entries: seq<Option<(K, V)>>, k: K)
    ensures k in InsertAll(entries) <==> exists i :: 0 <= i < |entries| && EntryKey(entries[i]) == Some(k)
    decreases |entries|
  {
    if |entries| > 0 {
      var n := |entries| - 1;
      var init := entries[..n];
      InsertAllKeys(init, k);
      if k in InsertAll(entries) && EntryKey(entries[n]) != Some(k) {
        var i :| 0 <= i < |init| && EntryKey(init[i]) == Some(k);
        assert entries[i] == init[i];
      }
      if exists i :: 0 <= i < |entries| && EntryKey(entries[i]) == Some(k) {
        var i :| 0 <= i < |entries| && EntryKey(entries[i]) == Some(k);
        if i < n {
          assert init[i] == entries[i];
        }
      }
    }
  }

  /** The value of a key is that of the last entry with the key: a later
      insertion overwrites an earlier one. */
  lemma {:induction false} InsertAllLastWins<K, V>(entries: seq<Option<(K, V)>>, i: int)
    requires 0 <= i < |entries| && entries[i].Some? && LastOfItsKey(entries, i)
    ensures entries[i].value.0 in InsertAll(entries)
    ensures InsertAll(entries)[entries[i].value.0] == entries[i].value.1
    decreases |entries|
  {
    var n := |entries| - 1;
    if i < n {
      var init := entries[..n];
      assert LastOfItsKey(init, i) by {
        forall j | i < j < |init| ensures EntryKey(init[j]) != EntryKey(init[i]) {
          assert init[j] == entries[j];
        }
      }
      InsertAllLastWins(init, i);
      assert EntryKey(entries[n]) != EntryKey(entries[i]);
    }
  }

  /** An absent entry can be dropped without changing the map. */
  lemma {:induction false} InsertAllSkipsNone<K(!new), V>(before: seq<Option<(K, V)>>, after: seq<Option<(K, V)>>)
    ensures InsertAll(before + [None] + after) == InsertAll(before + after)
    decreases |after|
  {
    var all := before + [None] + after;
    var without := before + after;
    if after == [] {
      assert all[..|all| - 1] == before;
      assert without == before;
    } else {
      var init := after[..|after| - 1];
      var last := after[|after| - 1];
      assert all[..|all| - 1] == before + [None] + init;
      assert without[..|without| - 1] == before + init;
      assert all[|all| - 1] == last && without[|without| - 1] == last;
      InsertAllSkipsNone(before, init);
      assert InsertAll(all) == Insert(InsertAll(before + [None] + init), last);
      assert InsertAll(without) == Insert(InsertAll(before + init), last);
    }
  }

  /** The entry each argument contributes, in argument order. */
  function Entries(args: seq<string>): (es: seq<Option<(string, string)>>)
    ensures |es| == |args|
    ensures forall i :: 0 <= i < |args| ==> es[i] == ParseArg(args[i])
  {
    seq(|args|, i requires 0 <= i < |args| => ParseArg(args[i]))
  }

  /** The key an argument contributes, if any. */
  function KeyOf(a: string): Option<string> {
    EntryKey(ParseArg(a))
  }

  /** `Auth::parse_cmd`: every argument holding `=` inserts its key and value
      into the map, in order, so that a later argument with the same key
      overwrites an earlier one. */
  function ParseCmd(args: seq<string>): (m: map<string, string>)
    ensures forall k :: k in m <==> exists i :: 0 <= i < |args| && KeyOf(args[i]) == Some(k)
    ensures forall i :: (0 <= i < |args| && ParseArg(args[i]).Some? && LastOfItsKey(Entries(args), i)) ==>
      ParseArg(args[i]).value.0 in m && m[ParseArg(args[i]).value.0] == ParseArg(args[i]).value.1
  {
    var es := Entries(args);
    var m := InsertAll(es);
    forall k ensures k in m <==> exists i :: 0 <= i < |args| && KeyOf(args[i]) == Some(k) {
      InsertAllKeys(es, k);
      assert forall i :: 0 <= i < |args| ==> KeyOf(args[i]) == EntryKey(es[i]);
    }
    forall i | 0 <= i < |args| && ParseArg(args[i]).Some? && LastOfItsKey(es, i) {
      InsertAllLastWins(es, i);
    }
    m
  }

  lemma EntriesAppend(x: seq<string>, y: seq<string>)
    ensures Entries(x + y) == Entries(x) + Entries(y)
  {
    var all := x + y;
    forall i | 0 <= i < |all| ensures Entries(all)[i] == (Entries(x) + Entries(y))[i] {
      if i < |x| {
        assert all[i] == x[i];
      } else {
        assert all[i] == y[i - |x|];
      }
    }
  }

  /** An argument without `=` can be removed without changing the map. */
  lemma ArgWithoutEqualsIgnored(before: seq<string>, a: string, after: seq<string>)
    requires '=' !in a
    ensures ParseCmd(before + [a] + after) == ParseCmd(before + after)
  {
    assert Entries([a]) == [None] by {
      assert ParseArg(a) == None;
    }
    EntriesAppend(before, [a]);
    EntriesAppend(before + [a], after);
    EntriesAppend(before, after);
    InsertAllSkipsNone(Entries(before), Entries(after));
  }

  // ---------------------------------------------------------------------
  // Finding the process and building the credential

  /** The first process with the given executable name, as `find_map` over
      the process map returns it. */
  function FindProcess(procs: seq<Process>, name: string): (r: Option<Process>)
    ensures r.None? <==> forall i :: 0 <= i < |procs| ==> procs[i].name != name
    ensures r.Some? ==> exists i :: (0 <= i < |procs| && procs[i] == r.value && r.value.name == name &&
      forall j :: 0 <= j < i ==> procs[j].name != name)
    decreases |procs|
  {
    if |procs| == 0 then None
    else if procs[0].name == name then Some(procs[0])
    else
      var r := FindProcess(procs[1..], name);
      assert forall i :: 1 <= i < |procs| ==> procs[i] == procs[1..][i - 1];
      r
  }

  /** `i` is the process `Auth::new` settles on. */
  ghost predicate ChosenProcess(os: Os, procs: seq<Process>, i: int) {
    && 0 <= i < |procs|
    && procs[i].name == ProcName(os)
    && forall j :: 0 <= j < i ==> procs[j].name != ProcName(os)
  }

  /** `Auth::new` with the platform and the process table as parameters.
      `NotRunning` exactly when no process has the platform's executable
      name; otherwise the port and the token of the chosen process's
      arguments, or a panic when the port (checked first) or the token is
      missing. */
  function NewAuth(os: Os, procs: seq<Process>): (r: Result<Auth, AuthFailure>)
    ensures r == Failure(Api(NotRunning)) <==> forall i :: 0 <= i < |procs| ==> procs[i].name != ProcName(os)
    ensures r.Failure? ==> r.error == Api(NotRunning) || exists i :: (ChosenProcess(os, procs, i) &&
      if PORT_ARG_NAME !in ParseCmd(procs[i].cmd) then r.error == Panic("could not find port in arg list")
      else KEY_ARG_NAME !in ParseCmd(procs[i].cmd) && r.error == Panic("could not find key in arg list"))
    ensures r.Success? ==> exists i :: (ChosenProcess(os, procs, i) &&
      var m := ParseCmd(procs[i].cmd);
      PORT_ARG_NAME in m && KEY_ARG_NAME in m && r.value.port == m[PORT_ARG_NAME] && r.value.key == m[KEY_ARG_NAME])
  {
    match FindProcess(procs, ProcName(os))
    case None => Failure(Api(NotRunning))
    case Some(proc) =>
      var m := ParseCmd(proc.cmd);
      if PORT_ARG_NAME !in m then Failure(Panic("could not find port in arg list"))
      else if KEY_ARG_NAME !in m then Failure(Panic("could not find key in arg list"))
      else Success(Auth(m[PORT_ARG_NAME], m[KEY_ARG_NAME]))
  }

  // ---------------------------------------------------------------------
  // The Basic credential

  const BASIC_PREFIX: string := "Basic "
  const USERNAME: string := "riot"

  /** `Auth::basic_auth_token`: `Basic ` followed by the padded base 64 of
      the UTF-8 octets of `riot:<token>`. Decoding the part after `Basic `
      gives back exactly `riot:<token>`. */
  function BasicAuthToken(auth: Auth): (r: string)
    ensures |r| >= |BASIC_PREFIX| && r[..|BASIC_PREFIX|] == BASIC_PREFIX
    ensures Base64.Decode(r[|BASIC_PREFIX|..]).Some?
    ensures Utf8.Decode(Base64.Decode(r[|BASIC_PREFIX|..]).value) == Some(USERNAME + ":" + auth.key)
  {
    var octets := Utf8.Encode(USERNAME + ":" + auth.key);
    var r := BASIC_PREFIX + Base64.Encode(octets);
    assert r[|BASIC_PREFIX|..] == Base64.Encode(octets);
    Base64.DecodeEncode(octets);
    Utf8.DecodeEncode(USERNAME + ":" + auth.key);
    r
  }

  /** The encoded part has 4 characters per started group of 3 octets, all
      from the base 64 alphabet except the final padding. */
  lemma BasicAuthTokenShape(auth: Auth)
    ensures var n := |Utf8.Encode(USERNAME + ":" + auth.key)|;
      var enc := BasicAuthToken(auth)[|BASIC_PREFIX|..];
      && |enc| == 4 * ((n + 2) / 3)
      && (forall i :: 0 <= i < |enc| ==> Base64.IsAlphabetChar(enc[i]) || (enc[i] == Base64.Pad && i >= |enc| - 2))
  {
    var octets := Utf8.Encode(USERNAME + ":" + auth.key);
    var enc := Base64.Encode(octets);
    BasicAuthTokenParts(auth, enc);
    Base64.EncodeChars(octets, enc);
  }

  /** The token is the prefix followed by the encoding. */
  lemma BasicAuthTokenParts(auth: Auth, enc: string)
    requires enc == Base64.Encode(Utf8.Encode(USERNAME + ":" + auth.key))
    ensures BasicAuthToken(auth) == BASIC_PREFIX + enc
    ensures BasicAuthToken(auth)[|BASIC_PREFIX|..] == enc
  {
    assert (BASIC_PREFIX + enc)[|BASIC_PREFIX|..] == enc;
  }

  /** Different tokens give different credentials. */
  lemma BasicAuthTokenInjective(a1: Auth, a2: Auth)
    requires BasicAuthToken(a1) == BasicAuthToken(a2)
    ensures a1.key == a2.key
  {
    var p := USERNAME + ":";
    assert p + a1.key == p + a2.key;
    assert a1.key == (p + a1.key)[|p|..];
  }

  /** The credential is a valid HTTP header value: every octet is a visible
      character, a space or a tab, never another control octet. */
  predicate IsHeaderValue(s: string) {
    var bs := Utf8.Encode(s);
    forall i :: 0 <= i < |bs| ==> (bs[i] >= 32 && bs[i] != 127) || bs[i] == 9
  }

  lemma BasicAuthTokenIsHeaderValue(auth: Auth)
    ensures IsHeaderValue(BasicAuthToken(auth))
  {
    var octets := Utf8.Encode(USERNAME + ":" + auth.key);
    var enc := Base64.Encode(octets);
    BasicAuthTokenParts(auth, enc);
    Base64.EncodeChars(octets, enc);
    assert Printable(enc);
    PrefixPrintable();
    PrintableJoin(BASIC_PREFIX, enc);
    PrintableIsHeaderValue(BASIC_PREFIX + enc);
  }

  lemma PrefixPrintable()
    ensures Printable(BASIC_PREFIX)
  {
  }

  lemma PrintableIsHeaderValue(s: string)
    requires Printable(s)
    ensures IsHeaderValue(s)
  {
    Utf8.EncodeAscii(s);
  }

  /** Printable ASCII, space to `~`. */
  predicate Printable(s: string) {
    forall i :: 0 <= i < |s| ==> 32 <= s[i] as int < 127
  }

  lemma PrintableJoin(p: string, e: string)
    requires Printable(p) && Printable(e)
    ensures Printable(p + e)
  {
    assert forall i :: |p| <= i < |p + e| ==> (p + e)[i] == e[i - |p|];
  }

}
