/** The registry file: one API key per line. Characters stand for bytes. */
module Registry {
  import opened Base

  type ApiKey = string

  /** What the file system holds under the registry's name: nothing yet, or a text. */
  type File = Option<string>

  // ----- Keys -----

  const HEX: string := "0123456789abcdef"

  function HexEncode(bytes: Bytes): (s: string)
    ensures |s| == 2 * |bytes|
  {
    if bytes == [] then ""
    else [HEX[bytes[0] / 16], HEX[bytes[0] % 16]] + HexEncode(bytes[1..])
  }

  /** What every generated key looks like: 24 random bytes in hexadecimal. */
  ghost predicate IsApiKey(k: ApiKey) {
    |k| == 48 && forall i :: 0 <= i < |k| ==> k[i] in HEX
  }

  /** What the registry's own format needs of a key. */
  ghost predicate IsLine(k: string) {
    k != "" && '\n' !in k
  }

  lemma {:induction false} HexDigits(bytes: Bytes)
    ensures forall i :: 0 <= i < |HexEncode(bytes)| ==> HexEncode(bytes)[i] in HEX
  {
    if bytes != [] {
      HexDigits(bytes[1..]);
    }
  }

  /** What a hexadecimal digit stands for. */
  function DigitValue(c: char): int {
    if '0' <= c <= '9' then c as int - '0' as int else c as int - 'a' as int + 10
  }

  /** Each byte becomes two digits, the higher first; digits are 0 to 9 and a to f. */
  lemma {:induction false} HexValue(bytes: Bytes, i: nat)
    requires i < |bytes|
    ensures var high, low := HexEncode(bytes)[2 * i], HexEncode(bytes)[2 * i + 1];
      && ('0' <= high <= '9' || 'a' <= high <= 'f') && ('0' <= low <= '9' || 'a' <= low <= 'f')
      && DigitValue(high) * 16 + DigitValue(low) == bytes[i] as int
  {
    if i == 0 {
      DigitOf((bytes[0] / 16) as int);
      DigitOf((bytes[0] % 16) as int);
    } else {
      HexValue(bytes[1..], i - 1);
      assert HexEncode(bytes)[2..] == HexEncode(bytes[1..]);
    }
  }

  lemma DigitOf(d: int)
    requires 0 <= d < 16
    ensures DigitValue(HEX[d]) == d && ('0' <= HEX[d] <= '9' || 'a' <= HEX[d] <= 'f')
  {
  }

  lemma {:induction false} HexInjective(a: Bytes, b: Bytes)
    requires HexEncode(a) == HexEncode(b)
    ensures a == b
  {
    assert |a| == |b|;
    if a != [] {
      var s, t := HexEncode(a), HexEncode(b);
      assert s[0] == t[0] && s[1] == t[1];
      DigitInjective((a[0] / 16) as int, (b[0] / 16) as int);
      DigitInjective((a[0] % 16) as int, (b[0] % 16) as int);
      assert s[2..] == HexEncode(a[1..]) && t[2..] == HexEncode(b[1..]);
      HexInjective(a[1..], b[1..]);
      assert a == [a[0]] + a[1..] && b == [b[0]] + b[1..];
    }
  }

  lemma DigitInjective(i: int, j: int)
    requires 0 <= i < 16 && 0 <= j < 16 && HEX[i] == HEX[j]
    ensures i == j
  {
  }

  lemma ApiKeysAreLines(k: ApiKey)
    requires IsApiKey(k)
    ensures IsLine(k)
  {
  }

  /** What the random source yields when it is asked for 24 bytes; None if it fails. */
  type Draw = d: Option<Bytes> | d.Some? ==> |d.value| == 24 witness None

  datatype KeyError = NoRandomness | NoFreshKey

  /** A draw that gives a key some tenant already has. */
  predicate Taken(d: Draw, tenants: set<ApiKey>) {
    d.Some? && HexEncode(d.value) in tenants
  }

  function KeyOf(d: Draw): Result<ApiKey, KeyError> {
    if d.Some? then Ok(HexEncode(d.value)) else Err(NoRandomness)
  }

  ghost predicate FirstNotTaken(draws: seq<Draw>, tenants: set<ApiKey>, i: nat) {
    i < |draws| && !Taken(draws[i], tenants) && forall j :: 0 <= j < i ==> Taken(draws[j], tenants)
  }

  /** Draws up to five times and takes the first key that no tenant has; a draw that fails ends it. Distinct
      draws give distinct keys. */
  method GenerateApiKey(draws: seq<Draw>, tenants: set<ApiKey>) returns (r: Result<ApiKey, KeyError>)
    requires |draws| == 5
    ensures r == Err(NoFreshKey) <==> forall j :: 0 <= j < 5 ==> Taken(draws[j], tenants)
    ensures r != Err(NoFreshKey) ==> exists i: nat :: FirstNotTaken(draws, tenants, i) && r == KeyOf(draws[i])
    ensures r.Ok? ==> IsApiKey(r.value) && r.value !in tenants
  {
    for i := 0 to 5
      invariant forall j :: 0 <= j < i ==> Taken(draws[j], tenants)
    {
      if draws[i].None? {
        assert FirstNotTaken(draws, tenants, i);
        return Err(NoRandomness);
      }
      var apiKey := HexEncode(draws[i].value);
      if apiKey in tenants {
        continue;
      }
      HexDigits(draws[i].value);
      assert FirstNotTaken(draws, tenants, i);
      return Ok(apiKey);
    }
    return Err(NoFreshKey);
  }

  // ----- Reading and writing -----

  /** The pieces between the newlines; a text without newlines is one piece. */
  function Split(text: string): (pieces: seq<string>)
    ensures |pieces| > 0
  {
    if text == "" then [""] else PutBefore(text[0], Split(text[1..]))
  }

  function PutBefore(c: char, pieces: seq<string>): (r: seq<string>)
    requires pieces != []
    ensures r != []
  {
    if c == '\n' then [""] + pieces else [[c] + pieces[0]] + pieces[1..]
  }

  function NonEmpty(pieces: seq<string>): seq<string> {
    Filter(pieces, (p: string) => p != "")
  }

  /** The keys a registry file lists. */
  function Keys(f: File): seq<ApiKey> {
    if f.None? then [] else NonEmpty(Split(f.value))
  }

  function Print(keys: seq<ApiKey>): string {
    if keys == [] then "" else keys[0] + "\n" + Print(keys[1..])
  }

  function Appended(f: File, apiKey: ApiKey): File {
    Some((if f.None? then "" else f.value) + (apiKey + "\n"))
  }

  function Removed(f: File, apiKey: ApiKey): File {
    Some(Print(Without(Keys(f), apiKey)))
  }

  /** The other keys, in order. */
  function Without(keys: seq<ApiKey>, apiKey: ApiKey): (r: seq<ApiKey>)
    ensures forall k :: k in r <==> k in keys && k != apiKey
  {
    Filter(keys, (k: ApiKey) => k != apiKey)
  }

  /** Reads the file piece by piece. */
  method ReadRegistry(f: File) returns (keys: seq<ApiKey>)
    ensures keys == Keys(f)
  {
    keys := [];
    if f.None? {
      return;
    }
    var lines := Split(f.value);
    for i := 0 to |lines|
      invariant keys == NonEmpty(lines[..i])
    {
      assert lines[..i + 1][..i] == lines[..i];
      if lines[i] != "" {
        keys := keys + [lines[i]];
      }
    }
    assert lines[..|lines|] == lines;
  }

  /** Moves the other keys to the front of the very array it reads from; the source's `kept` shares the
      memory of `keys`. What lies behind the kept keys is left over. */
  method CompactInPlace(keys: array<ApiKey>, apiKey: ApiKey) returns (kept: nat)
    modifies keys
    ensures kept <= keys.Length && keys[..kept] == Without(old(keys[..]), apiKey)
  {
    hide Without;
    kept := 0;
    ghost var was := keys[..];
    WithoutNothing(apiKey);
    for i := 0 to keys.Length
      invariant kept <= i
      invariant forall j :: i <= j < keys.Length ==> keys[j] == was[j]
      invariant keys[..kept] == Without(was[..i], apiKey)
    {
      var k := keys[i];
      ghost var before := keys[..kept];
      WithoutOneMore(was, i, apiKey);
      if k != apiKey {
        keys[kept] := k;
        kept := kept + 1;
        assert keys[..kept] == before + [k];
      }
    }
    assert was[..keys.Length] == was;
  }

  lemma WithoutNothing(apiKey: ApiKey)
    ensures Without([], apiKey) == []
  {
  }

  lemma WithoutOneMore(keys: seq<ApiKey>, i: nat, apiKey: ApiKey)
    requires i < |keys|
    ensures Without(keys[..i + 1], apiKey)
         == if keys[i] == apiKey then Without(keys[..i], apiKey) else Without(keys[..i], apiKey) + [keys[i]]
  {
    assert keys[..i + 1][..i] == keys[..i];
  }

  /** strings.Join(kept, "\n") + "\n" */
  function Join(keys: seq<ApiKey>): string
    requires keys != []
  {
    if |keys| == 1 then keys[0] else keys[0] + ("\n" + Join(keys[1..]))
  }

  lemma {:induction false} PrintIsJoin(keys: seq<ApiKey>)
    requires keys != []
    ensures Print(keys) == Join(keys) + "\n"
  {
    if |keys| > 1 {
      PrintIsJoin(keys[1..]);
    } else {
      assert keys[1..] == [];
      assert keys[0] + "\n" + "" == keys[0] + "\n";
    }
  }

  /** The text that replaces the file when a key is removed. */
  method RemovalText(f: File, apiKey: ApiKey) returns (content: string)
    ensures Removed(f, apiKey) == Some(content)
  {
    var read := ReadRegistry(f);
    var keys := new ApiKey[|read|](i requires 0 <= i < |read| => read[i]);
    assert keys[..] == read;
    var kept := CompactInPlace(keys, apiKey);
    content := "";
    if kept > 0 {
      PrintIsJoin(keys[..kept]);
      content := Join(keys[..kept]) + "\n";
    }
  }

  // ----- Reading back what was written -----

  /** The file is missing, empty, or ends in a newline. */
  ghost predicate Terminated(f: File) {
    f.Some? ==> f.value == "" || f.value[|f.value| - 1] == '\n'
  }

  /** The pieces of two texts put one after the other: the last of the first and the first of the second
      become one. */
  function Glue(a: seq<string>, b: seq<string>): seq<string>
    requires a != [] && b != []
  {
    a[..|a| - 1] + [a[|a| - 1] + b[0]] + b[1..]
  }

  lemma PutBeforeGlued(c: char, a: seq<string>, b: seq<string>)
    requires a != [] && b != []
    ensures PutBefore(c, Glue(a, b)) == Glue(PutBefore(c, a), b)
  {
    var g := Glue(a, b);
    if c == '\n' {
      assert [""] + g == Glue([""] + a, b);
    } else if |a| == 1 {
      assert [c] + (a[0] + b[0]) == [c] + a[0] + b[0];
      assert [[c] + a[0] + b[0]] + b[1..] == Glue([[c] + a[0]], b);
    } else {
      assert [[c] + a[0]] + g[1..] == Glue([[c] + a[0]] + a[1..], b);
    }
  }

  lemma {:induction false} SplitAppend(text: string, more: string)
    ensures Split(text + more) == Glue(Split(text), Split(more))
  {
    if text == "" {
      assert text + more == more;
      assert "" + Split(more)[0] == Split(more)[0];
    } else {
      assert (text + more)[1..] == text[1..] + more;
      SplitAppend(text[1..], more);
      PutBeforeGlued(text[0], Split(text[1..]), Split(more));
    }
  }

  function Last<T>(s: seq<T>): T
    requires s != []
  {
    s[|s| - 1]
  }

  lemma {:induction false} SplitLine(k: string)
    requires '\n' !in k
    ensures Split(k) == [k] && Split(k + "\n") == [k, ""]
  {
    if k == "" {
      assert k + "\n" == "\n";
      assert "\n"[1..] == "";
    } else {
      assert (k + "\n")[1..] == k[1..] + "\n";
      SplitLine(k[1..]);
      assert [k[0]] + k[1..] == k;
    }
  }

  lemma NonEmptyAppend(a: seq<string>, b: seq<string>)
    ensures NonEmpty(a + b) == NonEmpty(a) + NonEmpty(b)
  {
    FilterAppend(a, b, (p: string) => p != "");
  }

  lemma {:induction false} LastPiece(text: string)
    ensures Last(Split(text)) == "" <==> text == "" || Last(text) == '\n'
  {
    if |text| == 1 {
      assert text[1..] == "";
    } else if text != "" {
      LastPiece(text[1..]);
    }
  }

  /** Reading after an append gives the old keys and then the new one, exactly when the file was terminated. */
  lemma ReadAfterAppend(f: File, apiKey: ApiKey)
    requires IsLine(apiKey)
    ensures Keys(Appended(f, apiKey)) == Keys(f) + [apiKey] <==> Terminated(f)
    ensures Terminated(Appended(f, apiKey))
  {
    hide Split, NonEmpty, PutBefore;
    var text := if f.None? then "" else f.value;
    var pieces := Split(text);
    var init, last := pieces[..|pieces| - 1], Last(pieces);
    assert pieces == init + [last];
    NoFileIsEmptyFile();
    assert Keys(f) == NonEmpty(pieces);
    NonEmptyAppend(init, [last]);
    SplitAppend(text, apiKey + "\n");
    SplitLine(apiKey);
    NonEmptyAppend(init, [last + apiKey, ""]);
    assert Glue(pieces, [apiKey, ""]) == init + [last + apiKey, ""];
    NonEmptyOfLine(last + apiKey);
    LastPiece(text);
    if last == "" {
      assert last + apiKey == apiKey;
      assert NonEmpty(init) + [] == NonEmpty(init);
    } else {
      assert Last(NonEmpty(init) + [last + apiKey]) == last + apiKey != apiKey;
    }
  }

  lemma TerminatedSuffix(line: string, rest: string)
    requires Terminated(Some(line)) && Terminated(Some(rest))
    ensures Terminated(Some(line + rest))
  {
    if rest == "" {
      assert line + rest == line;
    }
  }

  lemma NoFileIsEmptyFile()
    ensures Keys(Some("")) == [] && NonEmpty(Split("")) == [] && NonEmpty([""]) == []
  {
    assert Split("") == [""] && [""][1..] == [];
  }

  lemma NonEmptyOfLine(k: string)
    requires k != ""
    ensures NonEmpty([k, ""]) == [k] == NonEmpty([k])
  {
    var p := (piece: string) => piece != "";
    assert [k][..0] == [] && Filter([k], p) == [k];
    assert [k, ""][..1] == [k] && Filter([k, ""], p) == [k];
  }

  lemma {:induction false} ReadPrinted(keys: seq<ApiKey>)
    requires forall k :: k in keys ==> IsLine(k)
    ensures Keys(Some(Print(keys))) == keys && Terminated(Some(Print(keys)))
  {
    hide Split, NonEmpty, PutBefore;
    if keys == [] {
      NoFileIsEmptyFile();
    } else {
      var k, rest := keys[0], Print(keys[1..]);
      assert k in keys;
      ReadPrinted(keys[1..]);
      SplitAppend(k + "\n", rest);
      SplitLine(k);
      assert Glue([k, ""], Split(rest)) == [k] + Split(rest) by { assert "" + Split(rest)[0] == Split(rest)[0]; }
      NonEmptyAppend([k], Split(rest));
      NonEmptyOfLine(k);
      TerminatedSuffix(k + "\n", rest);
    }
  }

  /** The keys read from any file are lines: none is empty and none holds a newline. */
  lemma {:induction false} SplitHasNoNewline(text: string)
    ensures forall p :: p in Split(text) ==> '\n' !in p
  {
    if text != "" {
      SplitHasNoNewline(text[1..]);
    }
  }

  lemma KeysAreLines(f: File)
    ensures forall k :: k in Keys(f) ==> IsLine(k)
  {
    if f.Some? {
      SplitHasNoNewline(f.value);
    }
  }

  /** Reading after a removal gives exactly the other keys in their order, whatever the file looked like. */
  lemma ReadAfterRemove(f: File, apiKey: ApiKey)
    ensures Keys(Removed(f, apiKey)) == Without(Keys(f), apiKey)
    ensures Terminated(Removed(f, apiKey))
  {
    KeysAreLines(f);
    ReadPrinted(Without(Keys(f), apiKey));
  }

  // ----- Whole runs -----

  datatype Change = Append(key: ApiKey) | Remove(key: ApiKey)

  function Changed(f: File, c: Change): File {
    if c.Append? then Appended(f, c.key) else Removed(f, c.key)
  }

  function ChangedBy(f: File, changes: seq<Change>): File {
    if changes == [] then f else Changed(ChangedBy(f, changes[..|changes| - 1]), Last(changes))
  }

  /** The list of keys a client of the registry has in mind. */
  function Intended(changes: seq<Change>): seq<ApiKey> {
    if changes == [] then []
    else
      var before := Intended(changes[..|changes| - 1]);
      var c := Last(changes);
      if c.Append? then before + [c.key] else Without(before, c.key)
  }

  /** Every run of appends and removals on a registry that did not exist leaves a terminated file that
      reads back as the intended list. */
  lemma {:induction false} RegistryFollowsIntent(changes: seq<Change>)
    requires forall c :: c in changes ==> IsLine(c.key)
    ensures Terminated(ChangedBy(None, changes))
    ensures Keys(ChangedBy(None, changes)) == Intended(changes)
  {
    if changes != [] {
      var before := changes[..|changes| - 1];
      RegistryFollowsIntent(before);
      assert Last(changes) in changes;
      ReadAfterAppend(ChangedBy(None, before), Last(changes).key);
      ReadAfterRemove(ChangedBy(None, before), Last(changes).key);
    }
  }

  /** Every appended key was absent at the time. */
  ghost predicate AppendsFreshKeys(changes: seq<Change>) {
    forall i :: 0 <= i < |changes| && changes[i].Append? ==> changes[i].key !in Intended(changes[..i])
  }

  lemma WithoutKeepsDistinct(keys: seq<ApiKey>, apiKey: ApiKey)
    requires Distinct(keys)
    ensures Distinct(Without(keys, apiKey))
  {
    FilterKeepsDistinct(keys, (k: ApiKey) => k != apiKey);
  }

  lemma {:induction false} NoDuplicates(changes: seq<Change>)
    requires forall c :: c in changes ==> IsLine(c.key)
    requires AppendsFreshKeys(changes)
    ensures Distinct(Keys(ChangedBy(None, changes)))
    decreases |changes|
  {
    RegistryFollowsIntent(changes);
    if changes != [] {
      var n := |changes| - 1;
      var before := changes[..n];
      forall i | 0 <= i < n
        ensures before[..i] == changes[..i]
      {
      }
      NoDuplicates(before);
      RegistryFollowsIntent(before);
      WithoutKeepsDistinct(Intended(before), changes[n].key);
    }
  }
}
