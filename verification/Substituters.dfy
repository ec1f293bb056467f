/**
 * Signatures over narinfos and the order caches are asked in (site/js/substituters.js). Checking a signature is
 * abstract.
 */
module Substituters {
  import opened Prelude
  import opened Paths
  import opened Form
  import opened Text
  import Closure

  datatype Info = Info(storePath: string, narHash: string, narSize: nat, references: seq<string>, sigs: seq<string>)

  datatype Substituter = Substituter(url: string, key: string)

  // ---------- the fingerprint ----------

  function Decimal(n: nat): (s: string)
    ensures s != "" && forall i :: 0 <= i < |s| ==> '0' <= s[i] <= '9'
  {
    (if n < 10 then "" else Decimal(n / 10)) + [(48 + n % 10) as char]
  }

  function DecimalValue(s: string): nat {
    if s == "" then 0
    else 10 * DecimalValue(s[..|s| - 1]) + if '0' <= s[|s| - 1] <= '9' then s[|s| - 1] as int - 48 else 0
  }

  lemma {:induction false} DecimalIsRead(n: nat)
    ensures DecimalValue(Decimal(n)) == n
  {
    if n >= 10 {
      DecimalIsRead(n / 10);
      assert Decimal(n)[..|Decimal(n)| - 1] == Decimal(n / 10);
    } else {
      assert Decimal(n)[..0] == "";
    }
  }

  /** No zero stands in front, so a number is written in one way only. */
  lemma {:induction false} DecimalIsShort(n: nat)
    ensures n < 10 ==> |Decimal(n)| == 1
    ensures n >= 10 ==> Decimal(n)[0] != '0'
  {
    if n >= 100 {
      DecimalIsShort(n / 10);
    }
  }

  function Prefixed(references: seq<string>): seq<string> {
    if references == [] then [] else [Closure.STORE_PREFIX + references[0]] + Prefixed(references[1..])
  }

  function ReferencesText(references: seq<string>): string {
    Join(Prefixed(references), ",")
  }

  /** What a cache signs. */
  function Fingerprint(info: Info): string {
    "1" + [';'] + (info.storePath + [';'] + (info.narHash + [';'] +
      (Decimal(info.narSize) + [';'] + ReferencesText(info.references))))
  }

  ghost predicate Signable(info: Info) {
    && Free(info.storePath, ';') && Free(info.narHash, ';')
    && forall i :: 0 <= i < |info.references| ==> Free(info.references[i], ',')
  }

  lemma {:induction false} PrefixedMeans(references: seq<string>)
    requires forall i :: 0 <= i < |references| ==> Free(references[i], ',')
    ensures |Prefixed(references)| == |references|
    ensures forall p :: p in Prefixed(references) ==> Free(p, ',') && p != ""
  {
    if references != [] {
      PrefixedMeans(references[1..]);
    }
  }

  lemma {:induction false} PrefixedInjective(a: seq<string>, b: seq<string>)
    requires Prefixed(a) == Prefixed(b)
    ensures a == b
  {
    if a != [] && b != [] {
      assert Prefixed(a)[0] == Prefixed(b)[0] && Prefixed(a)[1..] == Prefixed(b)[1..];
      var prefix := Closure.STORE_PREFIX;
      assert (prefix + a[0])[|prefix|..] == a[0] && (prefix + b[0])[|prefix|..] == b[0];
      PrefixedInjective(a[1..], b[1..]);
      assert a == [a[0]] + a[1..] && b == [b[0]] + b[1..];
    }
  }

  lemma {:induction false} JoinNonEmpty(parts: seq<string>)
    requires parts != [] && forall p :: p in parts ==> p != ""
    ensures Join(parts, ",") != ""
  {
    assert parts[0] in parts;
  }

  lemma {:induction false} ReferencesInjective(a: seq<string>, b: seq<string>)
    requires forall i :: 0 <= i < |a| ==> Free(a[i], ',')
    requires forall i :: 0 <= i < |b| ==> Free(b[i], ',')
    requires ReferencesText(a) == ReferencesText(b)
    ensures a == b
  {
    PrefixedMeans(a);
    PrefixedMeans(b);
    if a != [] {
      JoinNonEmpty(Prefixed(a));
      SplitJoin(Prefixed(a), ',');
    }
    if b != [] {
      JoinNonEmpty(Prefixed(b));
      SplitJoin(Prefixed(b), ',');
    }
    PrefixedInjective(a, b);
  }

  /** A fingerprint says everything it covers: path, hash, size and references. */
  lemma {:induction false} FingerprintInjective(a: Info, b: Info)
    requires Signable(a) && Signable(b) && Fingerprint(a) == Fingerprint(b)
    ensures a.storePath == b.storePath && a.narHash == b.narHash && a.narSize == b.narSize
    ensures a.references == b.references
  {
    FingerprintFields(a);
    FingerprintFields(b);
    DecimalIsRead(a.narSize);
    DecimalIsRead(b.narSize);
    ReferencesInjective(a.references, b.references);
  }

  lemma {:induction false} FingerprintFields(a: Info)
    requires Signable(a)
    ensures var path := Cut(Fingerprint(a), ';').1; var hash := Cut(path, ';').1; var size := Cut(hash, ';').1;
      && Cut(path, ';').0 == a.storePath && Cut(hash, ';').0 == a.narHash
      && Cut(size, ';') == (Decimal(a.narSize), ReferencesText(a.references))
  {
    var size := Decimal(a.narSize) + [';'] + ReferencesText(a.references);
    CutJoined("1", a.storePath + [';'] + (a.narHash + [';'] + size), ';');
    CutJoined(a.storePath, a.narHash + [';'] + size, ';');
    CutJoined(a.narHash, size, ';');
    CutJoined(Decimal(a.narSize), ReferencesText(a.references), ';');
  }

  /** The signed text, piece by piece: a version, the path, the hash, the size, and every reference as a store path. */
  lemma {:induction false} FingerprintIs(info: Info)
    requires Signable(info) && Free(ReferencesText(info.references), ';')
    ensures var parts := Split(Fingerprint(info), ';');
      && |parts| == 5 && parts[0] == "1" && parts[1] == info.storePath && parts[2] == info.narHash
      && DecimalValue(parts[3]) == info.narSize && parts[3] != ""
      && (if info.narSize < 10 then |parts[3]| == 1 else parts[3][0] != '0')
      && (if info.references == [] then parts[4] == ""
          else
            && |Split(parts[4], ',')| == |info.references|
            && forall i :: 0 <= i < |info.references| ==>
                 Split(parts[4], ',')[i] == "/nix/store/" + info.references[i])
  {
    hide ReferencesText, Decimal, Split, DecimalValue;
    FingerprintParts(info.storePath, info.narHash, Decimal(info.narSize), ReferencesText(info.references));
    DecimalIsRead(info.narSize);
    DecimalIsShort(info.narSize);
    ReferencesAreRead(info.references);
  }

  lemma {:induction false} FingerprintParts(path: string, hash: string, size: string, references: string)
    requires Free(path, ';') && Free(hash, ';') && Free(size, ';') && Free(references, ';')
    ensures Split("1" + [';'] + (path + [';'] + (hash + [';'] + (size + [';'] + references))), ';') ==
      ["1", path, hash, size, references]
  {
    hide Split;
    SplitFree("1", ';');
    SplitFree(path, ';');
    SplitFree(hash, ';');
    SplitFree(size, ';');
    SplitFree(references, ';');
    SplitAt(size, references, ';');
    SplitAt(hash, size + [';'] + references, ';');
    SplitAt(path, hash + [';'] + (size + [';'] + references), ';');
    SplitAt("1", path + [';'] + (hash + [';'] + (size + [';'] + references)), ';');
  }

  lemma {:induction false} ReferencesAreRead(references: seq<string>)
    requires forall i :: 0 <= i < |references| ==> Free(references[i], ',')
    ensures references == [] ==> ReferencesText(references) == ""
    ensures references != [] ==> |Split(ReferencesText(references), ',')| == |references|
    ensures references != [] ==> forall i :: 0 <= i < |references| ==>
      Split(ReferencesText(references), ',')[i] == "/nix/store/" + references[i]
  {
    hide Split, Join;
    if references != [] {
      PrefixedMeans(references);
      SplitJoin(Prefixed(references), ',');
      forall i | 0 <= i < |references| ensures Prefixed(references)[i] == "/nix/store/" + references[i] {
        PrefixedAt(references, i);
      }
    } else {
      NothingJoined();
    }
  }

  lemma {:induction false} NothingJoined()
    ensures ReferencesText([]) == ""
  {
  }

  lemma {:induction false} PrefixedAt(references: seq<string>, i: nat)
    requires i < |references|
    ensures |Prefixed(references)| == |references| && Prefixed(references)[i] == "/nix/store/" + references[i]
  {
    if i > 0 {
      PrefixedAt(references[1..], i - 1);
    } else if |references| > 1 {
      PrefixedAt(references[1..], 0);
    }
  }

  // ---------- signatures ----------

  datatype Check = Good | Bad | Throws

  /** Whether a key's bytes check a signature of a message, all still in base64; no signature when there is no colon. */
  type Checker = (string, Option<string>, string) -> Check

  function NameOf(sig: string): string {
    Split(sig, ':')[0]
  }

  function SignatureOf(sig: string): Option<string> {
    var parts := Split(sig, ':');
    if |parts| > 1 then Some(parts[1]) else None
  }

  /** A signature line is the name of the key, a colon, and the signature. */
  lemma {:induction false} SignatureIs(name: string, signature: string)
    requires Free(name, ':') && Free(signature, ':')
    ensures NameOf(name + ":" + signature) == name && SignatureOf(name + ":" + signature) == Some(signature)
  {
    assert name + ":" + signature == name + [':'] + signature;
    SplitAt(name, signature, ':');
    SplitFree(name, ':');
    SplitFree(signature, ':');
  }

  /** The first configured key of this name. */
  function KeyFor(name: string, substituters: seq<Substituter>): (key: Option<string>)
    ensures key.Some? ==>
      exists s :: s in substituters && StartsWith(s.key, name + ":") && key.value == s.key[|name| + 1..]
    ensures key.None? <==> forall s :: s in substituters ==> !StartsWith(s.key, name + ":")
  {
    if substituters == [] then None
    else if StartsWith(substituters[0].key, name + ":") then
      assert substituters[0] in substituters;
      Some(substituters[0].key[|name| + 1..])
    else
      assert substituters == [substituters[0]] + substituters[1..];
      KeyFor(name, substituters[1..])
  }

  /** What one signature line comes to: nothing, when no key of its name is configured. */
  function Examined(check: Checker, info: Info, sig: string, substituters: seq<Substituter>): Option<Check> {
    var key := KeyFor(NameOf(sig), substituters);
    if key.None? then None else Some(check(key.value, SignatureOf(sig), Fingerprint(info)))
  }

  predicate Passes(examined: Option<Check>) {
    examined == None || examined == Some(Bad)
  }

  /** A listed signature checks, under a configured key of the same name, against this narinfo's fingerprint. */
  ghost predicate Vouched(check: Checker, info: Info, substituters: seq<Substituter>) {
    exists k, s :: 0 <= k < |info.sigs| && s in substituters && VouchedBy(check, info, info.sigs[k], s)
  }

  /** A key of the signature's name checks it for this message. */
  predicate Checks(check: Checker, message: string, sig: string, s: Substituter) {
    StartsWith(s.key, NameOf(sig) + ":") && check(s.key[|NameOf(sig)| + 1..], SignatureOf(sig), message) == Good
  }

  predicate VouchedBy(check: Checker, info: Info, sig: string, s: Substituter) {
    Checks(check, Fingerprint(info), sig, s)
  }

  /** The first so many signature lines say nothing. */
  ghost predicate PassUpto(check: Checker, info: Info, substituters: seq<Substituter>, n: nat)
    requires n <= |info.sigs|
  {
    forall k :: 0 <= k < n ==> Passes(Examined(check, info, info.sigs[k], substituters))
  }

  ghost predicate FirstIsGood(check: Checker, info: Info, substituters: seq<Substituter>) {
    exists k: nat | k < |info.sigs| ::
      PassUpto(check, info, substituters, k) && Examined(check, info, info.sigs[k], substituters) == Some(Good)
  }

  /**
   * True when the first line that says anything is a good signature; false when no line says anything; None when the
   * browser cannot check, or could not check the first line that would have said something.
   */
  method Verify(crypto: bool, check: Checker, info: Info, substituters: seq<Substituter>)
    returns (verdict: Option<bool>)
    ensures verdict == Some(true) ==> Vouched(check, info, substituters)
    ensures verdict == Some(true) <==> crypto && FirstIsGood(check, info, substituters)
    ensures verdict == Some(false) <==> info.sigs == [] || (crypto && PassUpto(check, info, substituters, |info.sigs|))
  {
    hide Fingerprint, NameOf, SignatureOf;
    if info.sigs == [] {
      return Some(false);
    }
    if !crypto {
      return None;
    }
    for i := 0 to |info.sigs|
      invariant PassUpto(check, info, substituters, i)
    {
      var key := KeyFor(NameOf(info.sigs[i]), substituters);
      if key.None? {
        continue;
      }
      match check(key.value, SignatureOf(info.sigs[i]), Fingerprint(info)) {
        case Good =>
          assert Examined(check, info, info.sigs[i], substituters) == Some(Good);
          return Some(true);
        case Throws =>
          assert Examined(check, info, info.sigs[i], substituters) == Some(Throws);
          return None;
        case Bad =>
      }
    }
    return Some(false);
  }

  /** Some line could not be checked, and none before it says anything. */
  ghost predicate Interrupted(check: Checker, info: Info, substituters: seq<Substituter>) {
    exists k: nat | k < |info.sigs| ::
      PassUpto(check, info, substituters, k) && Examined(check, info, info.sigs[k], substituters) == Some(Throws)
  }

  /** No two keys are configured under one name. */
  ghost predicate OneKeyEach(substituters: seq<Substituter>) {
    forall name, s, t ::
      Free(name, ':') && s in substituters && t in substituters && KeyNamed(s, name) && KeyNamed(t, name) ==>
        s.key == t.key
  }

  predicate KeyNamed(s: Substituter, name: string) {
    StartsWith(s.key, name + ":")
  }

  /** Unless a line could not be checked first, verifying finds out whether some configured key signed. */
  ghost predicate FindsOut(check: Checker, info: Info, substituters: seq<Substituter>) {
    && (FirstIsGood(check, info, substituters) <==>
          Vouched(check, info, substituters) && !Interrupted(check, info, substituters))
    && (PassUpto(check, info, substituters, |info.sigs|) <==>
          !Vouched(check, info, substituters) && !Interrupted(check, info, substituters))
  }

  lemma {:induction false} NameIsFree(sig: string)
    ensures Free(NameOf(sig), ':')
  {
    PartsAreFree(sig, ':');
    assert Split(sig, ':')[0] in Split(sig, ':');
  }

  /** With one key a name, a line is good exactly when a configured key vouches for it. */
  lemma {:induction false} ExaminedIsVouched(check: Checker, info: Info, substituters: seq<Substituter>, k: nat)
    requires OneKeyEach(substituters) && k < |info.sigs|
    ensures Examined(check, info, info.sigs[k], substituters) == Some(Good) <==>
            exists s :: s in substituters && VouchedBy(check, info, info.sigs[k], s)
  {
    var name := NameOf(info.sigs[k]);
    NameIsFree(info.sigs[k]);
    if KeyFor(name, substituters).Some? {
      var t :| t in substituters && StartsWith(t.key, name + ":") &&
               KeyFor(name, substituters).value == t.key[|name| + 1..];
      assert KeyNamed(t, name);
      forall s | s in substituters && VouchedBy(check, info, info.sigs[k], s) ensures s.key == t.key {
        assert KeyNamed(s, name);
      }
      assert Examined(check, info, info.sigs[k], substituters) == Some(Good) ==>
        VouchedBy(check, info, info.sigs[k], t);
    }
  }

  /** The first line that says anything, if there is one. */
  lemma {:induction false} FirstToSay(check: Checker, info: Info, substituters: seq<Substituter>, n: nat)
    returns (k: nat)
    requires n <= |info.sigs|
    ensures k <= n && PassUpto(check, info, substituters, k)
    ensures k < n ==> !Passes(Examined(check, info, info.sigs[k], substituters))
  {
    if n == 0 {
      k := 0;
    } else {
      k := FirstToSay(check, info, substituters, n - 1);
    }
    if n > 0 && k == n - 1 && Passes(Examined(check, info, info.sigs[k], substituters)) {
      k := n;
    }
  }

  lemma {:induction false} OneKeyFindsOut(check: Checker, info: Info, substituters: seq<Substituter>)
    requires OneKeyEach(substituters)
    ensures FindsOut(check, info, substituters)
  {
    hide Examined;
    var n := |info.sigs|;
    var k := FirstToSay(check, info, substituters, n);
    forall j: nat | j < n
      ensures Examined(check, info, info.sigs[j], substituters) == Some(Good) <==>
              exists s :: s in substituters && VouchedBy(check, info, info.sigs[j], s)
    {
      ExaminedIsVouched(check, info, substituters, j);
    }
    if k < n {
      forall j: nat | j < n && PassUpto(check, info, substituters, j) ensures j <= k {
      }
      var said := Examined(check, info, info.sigs[k], substituters);
      assert said.Some? && (said.value.Good? || said.value.Throws?);
    }
  }

  /** Two keys of a name: only the first is ever tried, so what the second alone checks counts as signed by nobody. */
  lemma {:induction false} SecondKeyIsNotTried(substituters: seq<Substituter>, name: string, s: Substituter,
                                               t: Substituter)
    requires Free(name, ':') && s in substituters && t in substituters && KeyNamed(s, name) && KeyNamed(t, name)
    requires s.key != t.key
    ensures exists check, info :: !FindsOut(check, info, substituters) && Vouched(check, info, substituters)
                                  && PassUpto(check, info, substituters, |info.sigs|)
  {
    var tried := KeyFor(name, substituters).value;
    var other := if s.key[|name| + 1..] == tried then t else s;
    KeysDiffer(name, s, t);
    var check: Checker := (key, _, _) => if key == other.key[|name| + 1..] then Good else Bad;
    var sig := name + [':'] + "";
    SplitAt(name, "", ':');
    SplitFree(name, ':');
    var info := Info("", "", 0, [], [sig]);
    assert NameOf(sig) == name;
    assert VouchedBy(check, info, info.sigs[0], other);
    assert Vouched(check, info, substituters);
    assert Examined(check, info, info.sigs[0], substituters) == Some(Bad);
    assert PassUpto(check, info, substituters, |info.sigs|);
  }

  lemma {:induction false} KeysDiffer(name: string, s: Substituter, t: Substituter)
    requires KeyNamed(s, name) && KeyNamed(t, name) && s.key != t.key
    ensures s.key[|name| + 1..] != t.key[|name| + 1..]
  {
    assert s.key == s.key[..|name| + 1] + s.key[|name| + 1..];
    assert t.key == t.key[..|name| + 1] + t.key[|name| + 1..];
  }

  /**
   * Whether some configured key signed is found out, for every narinfo and whatever the checks say, exactly when no two
   * keys are configured under one name.
   */
  lemma {:induction false} FindsOutIffOneKeyEach(substituters: seq<Substituter>)
    ensures OneKeyEach(substituters) <==> forall check, info :: FindsOut(check, info, substituters)
  {
    if OneKeyEach(substituters) {
      forall check, info ensures FindsOut(check, info, substituters) {
        OneKeyFindsOut(check, info, substituters);
      }
    } else {
      var name, s, t :| Free(name, ':') && s in substituters && t in substituters && KeyNamed(s, name) &&
                        KeyNamed(t, name) && s.key != t.key;
      SecondKeyIsNotTried(substituters, name, s, t);
    }
  }

  /** One line under one key: the key's own part checks the line's own part, for the signed text, or nobody signed. */
  lemma {:induction false} OneLineIsChecked(check: Checker, info: Info, name: string, signature: string, key: string,
                                            url: string)
    requires Free(name, ':') && Free(signature, ':') && info.sigs == [name + ":" + signature]
    ensures var substituters := [Substituter(url, name + ":" + key)];
      FirstIsGood(check, info, substituters) <==> check(key, Some(signature), Fingerprint(info)) == Good
  {
    hide Fingerprint;
    var substituters := [Substituter(url, name + ":" + key)];
    SignatureIs(name, signature);
    assert (name + ":" + key)[..|name| + 1] == name + ":" && (name + ":" + key)[|name| + 1..] == key;
    assert Examined(check, info, info.sigs[0], substituters) == Some(check(key, Some(signature), Fingerprint(info)));
    assert PassUpto(check, info, substituters, 0);
  }

  /** A configured key, asked for a signature that names it, only ever checks what its owner published. */
  ghost predicate Honest(check: Checker, substituters: seq<Substituter>, published: set<Info>) {
    forall s, sig, message ::
      s in substituters && Checks(check, message, sig, s) ==> exists p :: p in published && message == Fingerprint(p)
  }

  /** With honest keys configured, whatever other keys there are, what is vouched for is something published. */
  lemma {:induction false} VouchedIsPublished(check: Checker, info: Info, substituters: seq<Substituter>,
                                              published: set<Info>)
    requires Signable(info) && Vouched(check, info, substituters)
    requires Honest(check, substituters, published) && forall p :: p in published ==> Signable(p)
    ensures exists p :: p in published && p.(sigs := info.sigs) == info
  {
    var k, s :| 0 <= k < |info.sigs| && s in substituters && VouchedBy(check, info, info.sigs[k], s);
    var p :| p in published && Fingerprint(info) == Fingerprint(p);
    FingerprintInjective(info, p);
  }

  // ---------- asking the caches ----------

  datatype Answer = Unreachable | Absent | Holds(text: string)

  type Ask = string -> Answer

  function NarinfoUrl(s: Substituter, digest: string): string {
    s.url + "/" + digest + ".narinfo"
  }

  function AnswerOf(ask: Ask, digest: string, s: Substituter): Answer {
    ask(NarinfoUrl(s, digest))
  }

  datatype Found = Found(text: string, at: nat) | Failed(failures: seq<string>) | NotFound

  ghost predicate NoneHolds(ask: Ask, digest: string, substituters: seq<Substituter>) {
    forall k :: 0 <= k < |substituters| ==> !AnswerOf(ask, digest, substituters[k]).Holds?
  }

  /** What the first holder in order says, whichever could not be asked before it; otherwise why there is none. */
  method FetchNarinfo(ask: Ask, digest: string, substituters: seq<Substituter>) returns (found: Found)
    ensures found.Found? <==> !NoneHolds(ask, digest, substituters)
    ensures found.Found? ==> found.at < |substituters| && NoneHolds(ask, digest, substituters[..found.at])
    ensures found.Found? ==> ask(substituters[found.at].url + "/" + digest + ".narinfo") == Holds(found.text)
    ensures found.NotFound? <==> forall k :: 0 <= k < |substituters| ==>
      AnswerOf(ask, digest, substituters[k]) == Absent
    ensures found.Failed? ==> forall u :: u in found.failures <==>
      exists k ::
        0 <= k < |substituters| && AnswerOf(ask, digest, substituters[k]).Unreachable? && substituters[k].url == u
  {
    var failures := [];
    for i := 0 to |substituters|
      invariant NoneHolds(ask, digest, substituters[..i])
      invariant forall u :: u in failures <==>
        exists k :: 0 <= k < i && AnswerOf(ask, digest, substituters[k]).Unreachable? && substituters[k].url == u
      invariant failures == [] ==> forall k :: 0 <= k < i ==> AnswerOf(ask, digest, substituters[k]) == Absent
    {
      match ask(NarinfoUrl(substituters[i], digest)) {
        case Unreachable =>
          failures := failures + [substituters[i].url];
        case Absent =>
        case Holds(text) =>
          assert AnswerOf(ask, digest, substituters[i]) == Holds(text);
          return Found(text, i);
      }
      assert substituters[..i + 1] == substituters[..i] + [substituters[i]];
    }
    assert substituters[..|substituters|] == substituters;
    if |failures| > 0 {
      assert failures[0] in failures;
      return Failed(failures);
    }
    return NotFound;
  }

  /** True when a cache holds the path; otherwise false as soon as one cache has answered, and None when none could. */
  method HoldsPath(ask: Ask, digest: string, substituters: seq<Substituter>) returns (holds: Option<bool>)
    ensures holds == Some(true) <==> !NoneHolds(ask, digest, substituters)
    ensures holds == None <==> forall k :: 0 <= k < |substituters| ==>
      AnswerOf(ask, digest, substituters[k]).Unreachable?
    ensures holds == HoldsOf(ask, digest, substituters)
  {
    var asked := false;
    for i := 0 to |substituters|
      invariant forall k :: 0 <= k < i ==> !AnswerOf(ask, digest, substituters[k]).Holds?
      invariant !asked <==> forall k :: 0 <= k < i ==> AnswerOf(ask, digest, substituters[k]).Unreachable?
    {
      var answer := ask(NarinfoUrl(substituters[i], digest));
      if answer.Unreachable? {
        continue;
      }
      asked := true;
      if answer.Holds? {
        assert AnswerOf(ask, digest, substituters[i]).Holds?;
        return Some(true);
      }
    }
    return if asked then Some(false) else None;
  }

  ghost function HoldsOf(ask: Ask, digest: string, substituters: seq<Substituter>): Option<bool> {
    if !NoneHolds(ask, digest, substituters) then Some(true)
    else if forall k :: 0 <= k < |substituters| ==> AnswerOf(ask, digest, substituters[k]).Unreachable? then None
    else Some(false)
  }

  /**
   * A false does not say that all caches denied it: one that did is enough, although another could not be asked. It
   * says so exactly when every cache could be asked.
   */
  lemma {:induction false} FalseIsNotEveryCache(ask: Ask, digest: string, substituters: seq<Substituter>)
    requires HoldsOf(ask, digest, substituters) == Some(false)
    ensures (forall k :: 0 <= k < |substituters| ==> AnswerOf(ask, digest, substituters[k]) == Absent) <==>
            (forall k :: 0 <= k < |substituters| ==> !AnswerOf(ask, digest, substituters[k]).Unreachable?)
  {
  }

  lemma {:induction false} OneAnswerIsEnough(ask: Ask, digest: string, a: Substituter, b: Substituter)
    requires AnswerOf(ask, digest, a) == Absent && AnswerOf(ask, digest, b).Unreachable?
    ensures HoldsOf(ask, digest, [a, b]) == HoldsOf(ask, digest, [b, a]) == Some(false)
  {
    assert [a, b][0] == a && [b, a][1] == a;
    assert forall k :: 0 <= k < 2 ==> [a, b][k] in {a, b} && [b, a][k] in {a, b};
  }
}
