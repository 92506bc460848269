/** Packet-derived beacon identity: keys, slugs and Home Assistant entity ids. */
module Identity {
  import opened Wrappers
  import opened Text

  type byte = b: int | 0 <= b < 256
  type uint16 = n: int | 0 <= n < 65536

  const IBEACON := "ibeacon"
  const EDDYSTONE_UID := "eddystone_uid"
  const EDDYSTONE_URL := "eddystone_url"
  const NAME := "name"
  const MFG := "mfg"

  predicate KnownKind(kind: string) {
    kind == IBEACON || kind == EDDYSTONE_UID || kind == EDDYSTONE_URL || kind == NAME || kind == MFG
  }

  /** An identity: the kind of advertisement it was read from, and a kind-specific key. */
  datatype BeaconKey = BeaconKey(kind: string, key: string) {
    predicate IsZero() { kind == "" }

    /** What every constructor guarantees of its result. */
    predicate Valid() { KnownKind(kind) && key != "" }
  }

  // ---------------------------------------------------------------- slugs

  function Slug(k: BeaconKey): string { k.kind + "." + k.key }

  /** Position of the first dot, or -1: the search inside strings.Cut. */
  function FirstDot(s: string): (r: int)
    ensures -1 <= r < |s|
    ensures r >= 0 ==> s[r] == '.' && '.' !in s[..r]
    ensures r == -1 ==> '.' !in s
  {
    if s == "" then -1
    else if s[0] == '.' then 0
    else
      var r := FirstDot(s[1..]);
      assert r >= 0 ==> s[..r + 1] == [s[0]] + s[1..][..r];
      if r == -1 then -1 else r + 1
  }

  function ParseSlug(s: string): Option<BeaconKey> {
    var dot := FirstDot(s);
    if dot < 0 || s[dot + 1..] == "" then None
    else if !KnownKind(s[..dot]) then None
    else Some(BeaconKey(s[..dot], s[dot + 1..]))
  }

  function FromStoreKey(kind: string, key: string): Option<BeaconKey> {
    if !KnownKind(kind) || key == "" then None else Some(BeaconKey(kind, key))
  }

  lemma FirstDotOfSlug(k: BeaconKey)
    requires KnownKind(k.kind)
    ensures FirstDot(Slug(k)) == |k.kind|
  {
    var t, dot := Slug(k), FirstDot(Slug(k));
    assert t[|k.kind|] == '.';
    assert dot >= 0;
    assert '.' !in k.kind;
    assert forall i | 0 <= i < |k.kind| :: t[i] == k.kind[i];
  }

  /** Slug and ParseSlug are inverse bijections between valid keys and accepted slugs. */
  lemma SlugRoundTrip(k: BeaconKey, s: string)
    ensures ParseSlug(s) == Some(k) <==> k.Valid() && s == Slug(k)
  {
    var dot := FirstDot(s);
    if dot >= 0 {
      assert s == s[..dot] + ['.'] + s[dot + 1..];
    }
    if k.Valid() && s == Slug(k) {
      FirstDotOfSlug(k);
      assert s[..dot] == k.kind && s[dot + 1..] == k.key;
    }
  }

  // --------------------------------------------------------- constructors

  /** ^[0-9a-f]{8}-[0-9a-f]{4}-[0-9a-f]{4}-[0-9a-f]{4}-[0-9a-f]{12}$ */
  predicate IsCanonicalUUID(s: string) {
    && |s| == 36
    && s[8] == '-' && s[13] == '-' && s[18] == '-' && s[23] == '-'
    && forall i | 0 <= i < 36 && i != 8 && i != 13 && i != 18 && i != 23 :: IsHexDigit(s[i])
  }

  function IBeaconText(uuid: string, major: uint16, minor: uint16): string {
    uuid + "_" + Decimal(major) + "_" + Decimal(minor)
  }

  /** None stands for an error wrapping ErrInvalid, here and in the other constructors. */
  function NewIBeaconKey(uuid: string, major: uint16, minor: uint16): Option<BeaconKey> {
    var u := Lower(TrimSpace(uuid));
    if !IsCanonicalUUID(u) then None else Some(BeaconKey(IBEACON, IBeaconText(u, major, minor)))
  }

  function NewEddystoneUIDKey(namespace: string, instance: string): Option<BeaconKey> {
    var ns, inst := Lower(TrimSpace(namespace)), Lower(TrimSpace(instance));
    if !(|ns| == 20 && IsHex(ns)) then None
    else if !(|inst| == 12 && IsHex(inst)) then None
    else Some(BeaconKey(EDDYSTONE_UID, ns + "_" + inst))
  }

  function NewEddystoneURLKey(url: string): Option<BeaconKey> {
    var u := Lower(TrimSpace(url));
    if u == "" then None else Some(BeaconKey(EDDYSTONE_URL, u))
  }

  function NewNameKey(name: string): Option<BeaconKey> {
    var n := TrimSpace(name);
    if n == "" then None else Some(BeaconKey(NAME, n))
  }

  /** The iBeacon keys, as NewIBeaconKey builds them. */
  ghost predicate IsIBeaconKey(k: BeaconKey) {
    && k.kind == IBEACON
    && exists u: string, major: uint16, minor: uint16 ::
         IsCanonicalUUID(u) && k.key == IBeaconText(u, major, minor)
  }

  /** Every key a constructor can return (an mfg key is opaque hex, so any non-empty text is allowed). */
  ghost predicate Constructed(k: BeaconKey) {
    k.Valid() && (k.kind == IBEACON ==> IsIBeaconKey(k))
  }

  /** NewNameKey yields exactly the keys of trimmed, non-empty text. */
  lemma NameKeysExactly(k: BeaconKey)
    ensures (exists n :: NewNameKey(n) == Some(k)) <==> k.kind == NAME && k.key != "" && Trimmed(k.key)
  {
    forall n | NewNameKey(n) == Some(k)
      ensures Trimmed(k.key)
    {
      TrimSpaceTrims(n);
    }
    if k.kind == NAME && k.key != "" && Trimmed(k.key) {
      TrimSpaceTrims(k.key);
      assert NewNameKey(k.key) == Some(k);
    }
  }

  lemma LowerKeepsTrimmed(s: string)
    ensures Trimmed(Lower(s)) <==> Trimmed(s)
    ensures Lower(Lower(s)) == Lower(s)
  {
  }

  /** NewEddystoneURLKey yields exactly the keys of trimmed, non-empty, lower-case text. */
  lemma UrlKeysExactly(k: BeaconKey)
    ensures (exists u :: NewEddystoneURLKey(u) == Some(k))
      <==> k.kind == EDDYSTONE_URL && k.key != "" && Trimmed(k.key) && Lower(k.key) == k.key
  {
    forall u | NewEddystoneURLKey(u) == Some(k)
      ensures Trimmed(k.key) && Lower(k.key) == k.key
    {
      TrimSpaceTrims(u);
      LowerKeepsTrimmed(TrimSpace(u));
    }
    if k.kind == EDDYSTONE_URL && k.key != "" && Trimmed(k.key) && Lower(k.key) == k.key {
      TrimSpaceTrims(k.key);
      assert NewEddystoneURLKey(k.key) == Some(k);
    }
  }

  /** Twenty hex digits, an underscore and twelve hex digits. */
  predicate IsUidText(s: string) { |s| == 33 && s[20] == '_' && IsHex(s[..20]) && IsHex(s[21..]) }

  /** NewEddystoneUIDKey yields exactly the keys of a hex namespace and instance. */
  lemma UidKeysExactly(k: BeaconKey)
    ensures (exists ns, inst :: NewEddystoneUIDKey(ns, inst) == Some(k))
      <==> k.kind == EDDYSTONE_UID && IsUidText(k.key)
  {
    forall ns, inst | NewEddystoneUIDKey(ns, inst) == Some(k)
      ensures IsUidText(k.key)
    {
      var a, b := Lower(TrimSpace(ns)), Lower(TrimSpace(inst));
      assert k.key[..20] == a && k.key[21..] == b;
    }
    if k.kind == EDDYSTONE_UID && IsUidText(k.key) {
      var ns, inst := k.key[..20], k.key[21..];
      NormalIsFixed(ns);
      NormalIsFixed(inst);
      assert k.key == ns + "_" + inst;
      assert NewEddystoneUIDKey(ns, inst) == Some(k);
    }
  }

  /** NewIBeaconKey yields exactly the keys of a canonical UUID, a major and a minor. */
  lemma IBeaconKeysExactly(k: BeaconKey)
    ensures (exists u, major, minor :: NewIBeaconKey(u, major, minor) == Some(k)) <==> IsIBeaconKey(k)
  {
    if IsIBeaconKey(k) {
      var u: string, major: uint16, minor: uint16 :| IsCanonicalUUID(u) && k.key == IBeaconText(u, major, minor);
      NormalIsFixed(u);
      assert NewIBeaconKey(u, major, minor) == Some(k);
    }
  }

  /**
   * The constructors on any text, which is spaces around a trimmed core: the spaces and, except in a name, the case do
   * not matter.
   */
  lemma KeysOfAnyText(left: string, core: string, right: string, major: uint16, minor: uint16, inst: string)
    requires IsBlankText(left) && IsBlankText(right) && Trimmed(core)
    ensures var s, low := left + core + right, Lower(core);
      && NewIBeaconKey(s, major, minor)
           == (if IsCanonicalUUID(low) then Some(BeaconKey(IBEACON, low + "_" + Decimal(major) + "_" + Decimal(minor)))
               else None)
      && NewEddystoneURLKey(s) == (if core == "" then None else Some(BeaconKey(EDDYSTONE_URL, low)))
      && NewNameKey(s) == (if core == "" then None else Some(BeaconKey(NAME, core)))
      && NewEddystoneUIDKey(s, inst) == NewEddystoneUIDKey(low, inst)
      && NewEddystoneUIDKey(inst, s) == NewEddystoneUIDKey(inst, low)
  {
    TrimSpaceUnpads(left, core, right);
    LowerKeepsTrimmed(core);
    TrimSpaceTrims(Lower(core));
  }

  /** A UID's key is its two parts, in order, or there is none. */
  lemma UidKeyOf(ns: string, inst: string)
    requires IsHex(ns) && IsHex(inst)
    ensures NewEddystoneUIDKey(ns, inst)
      == if |ns| == 20 && |inst| == 12 then Some(BeaconKey(EDDYSTONE_UID, ns + "_" + inst)) else None
  {
    NormalIsFixed(ns);
    NormalIsFixed(inst);
  }

  /** The iBeacon text determines its three parts. */
  lemma IBeaconTextIsInjective(u: string, major: uint16, minor: uint16, u': string, major': uint16, minor': uint16)
    requires |u| == |u'|
    requires IBeaconText(u, major, minor) == IBeaconText(u', major', minor')
    ensures u == u' && major == major' && minor == minor'
  {
    var t, t' := Decimal(major) + "_" + Decimal(minor), Decimal(major') + "_" + Decimal(minor');
    EqualHeads(u, "_" + t, u', "_" + t') by {
      assert IBeaconText(u, major, minor) == u + ("_" + t);
      assert IBeaconText(u', major', minor') == u' + ("_" + t');
    }
    assert t == ("_" + t)[1..] && t' == ("_" + t')[1..];
    SplitIsUnique(Decimal(major), Decimal(minor), Decimal(major'), Decimal(minor'), '_');
    DecimalIsInjective(major, major');
    DecimalIsInjective(minor, minor');
  }

  // ----------------------------------------------------------- entity ids

  /** strings.ReplaceAll(s, "-", ""). */
  function StripDashes(s: string): string {
    if s == "" then ""
    else if s[0] == '-' then StripDashes(s[1..])
    else [s[0]] + StripDashes(s[1..])
  }

  const FREE_READABLE_MAX := 32

  /** The character a free-form key contributes to the readable part. */
  function SafeChar(c: char): char {
    if 'a' <= c <= 'z' || '0' <= c <= '9' || c == '_' then c else '_'
  }

  /** Mapped, run-collapsed and capped text: what the loop of sanitizeFree leaves in its builder. */
  function Readable(s: string): (r: string)
    ensures |r| <= FREE_READABLE_MAX
  {
    if s == "" then ""
    else
      var r := Readable(s[..|s| - 1]);
      var c := SafeChar(s[|s| - 1]);
      if |r| >= FREE_READABLE_MAX then r
      else if c == '_' && r != "" && r[|r| - 1] == '_' then r
      else r + [c]
  }

  function TrimUnderscores(s: string): string
    decreases |s|
  {
    if s != "" && s[0] == '_' then TrimUnderscores(s[1..])
    else if s != "" && s[|s| - 1] == '_' then TrimUnderscores(s[..|s| - 1])
    else s
  }

  function SanitizeFree(s: string): string { TrimUnderscores(Readable(Lower(s))) }

  lemma {:induction false} ReadableSaturates(s: string, n: nat)
    requires n <= |s| && |Readable(s[..n])| >= FREE_READABLE_MAX
    ensures Readable(s) == Readable(s[..n])
    decreases |s| - n
  {
    if n == |s| {
      assert s[..n] == s;
    } else {
      assert s[..n + 1][..n] == s[..n];
      ReadableSaturates(s, n + 1);
    }
  }

  /** sanitizeFree as the source runs it: one pass over the text with a builder and a flag. */
  method SanitizeFreeLoop(s: string) returns (r: string)
    ensures r == SanitizeFree(s)
  {
    var low := Lower(s);
    var b := "";
    var lastUnderscore := false;
    var i := 0;
    while i < |low|
      invariant 0 <= i <= |low|
      invariant b == Readable(low[..i]) && |b| < FREE_READABLE_MAX
      invariant lastUnderscore <==> b != "" && b[|b| - 1] == '_'
    {
      assert low[..i + 1][..i] == low[..i];
      var c := SafeChar(low[i]);
      i := i + 1;
      if c == '_' {
        if lastUnderscore {
          continue;
        }
        lastUnderscore := true;
      } else {
        lastUnderscore := false;
      }
      b := b + [c];
      if |b| >= FREE_READABLE_MAX {
        ReadableSaturates(low, i);
        break;
      }
    }
    assert low[..|low|] == low;
    r := TrimUnderscores(b);
  }

  predicate IsEntityText(s: string) {
    forall i | 0 <= i < |s| :: 'a' <= s[i] <= 'z' || '0' <= s[i] <= '9' || s[i] == '_'
  }

  predicate NoDoubleUnderscore(s: string) {
    forall i | 0 <= i < |s| - 1 :: !(s[i] == '_' && s[i + 1] == '_')
  }

  lemma {:induction false} ReadableIsClean(s: string)
    ensures IsEntityText(Readable(s)) && NoDoubleUnderscore(Readable(s))
  {
    if s != "" {
      ReadableIsClean(s[..|s| - 1]);
    }
  }

  lemma {:induction false} TrimKeepsClean(s: string)
    requires IsEntityText(s) && NoDoubleUnderscore(s)
    ensures var r := TrimUnderscores(s);
      IsEntityText(r) && NoDoubleUnderscore(r) && |r| <= |s|
      && (r != "" ==> r[0] != '_' && r[|r| - 1] != '_')
    decreases |s|
  {
    if s != "" && s[0] == '_' {
      TrimKeepsClean(s[1..]);
    } else if s != "" && s[|s| - 1] == '_' {
      TrimKeepsClean(s[..|s| - 1]);
    }
  }

  /** The readable part of a free-form entity id is safe, collapsed, trimmed and capped, for every key. */
  lemma SanitizeFreeIsClean(s: string)
    ensures var r := SanitizeFree(s);
      IsEntityText(r) && NoDoubleUnderscore(r) && |r| <= 32
      && (r != "" ==> r[0] != '_' && r[|r| - 1] != '_')
  {
    ReadableIsClean(Lower(s));
    TrimKeepsClean(Readable(Lower(s)));
  }

  /** One character more, of a text that is clean, is read as it is. */
  lemma ReadableGrows(s: string, c: char)
    requires |s| < FREE_READABLE_MAX && Readable(s) == s && SafeChar(c) == c
    requires s != "" && c == '_' ==> s[|s| - 1] != '_'
    ensures Readable(s + [c]) == s + [c]
  {
    assert (s + [c])[..|s|] == s;
  }

  lemma {:induction false} CleanIsReadable(s: string)
    requires IsEntityText(s) && NoDoubleUnderscore(s)
    ensures Readable(s) == if |s| <= FREE_READABLE_MAX then s else s[..FREE_READABLE_MAX]
  {
    if s != "" {
      var n := |s| - 1;
      CleanIsReadable(s[..n]);
      if n < FREE_READABLE_MAX {
        assert s == s[..n] + [s[n]];
        assert n > 0 ==> !(s[n - 1] == '_' && s[n] == '_');
        ReadableGrows(s[..n], s[n]);
      } else {
        assert s[..n][..FREE_READABLE_MAX] == s[..FREE_READABLE_MAX];
      }
    }
  }

  /** Text that is safe, collapsed and trimmed already keeps its characters, up to the cap, with capitals lowered. */
  lemma SanitizeFreeKeepsClean(s: string)
    requires IsEntityText(Lower(s)) && NoDoubleUnderscore(Lower(s))
    requires s != "" ==> Lower(s)[0] != '_' && Lower(s)[|s| - 1] != '_'
    ensures |s| <= 32 ==> SanitizeFree(s) == Lower(s)
    ensures |s| > 32 && Lower(s)[31] != '_' ==> SanitizeFree(s) == Lower(s)[..32]
  {
    CleanIsReadable(Lower(s));
  }

  /** Any other character becomes an underscore. */
  lemma SafeCharacters(c: char)
    ensures SafeChar(c) == if 'a' <= c <= 'z' || '0' <= c <= '9' then c else '_'
  {
  }

  /** The short hash is eight characters of a digest; nothing else is known of it. */
  ghost predicate IsShortHash(hash: string -> string) {
    forall s: string :: |hash(s)| == 8
  }

  function EntityBase(kind: string): string { "briihass_" + kind + "_" }

  function EntityID(k: BeaconKey, hash: string -> string): string {
    if k.kind == IBEACON then EntityBase(k.kind) + StripDashes(k.key)
    else if k.kind == EDDYSTONE_UID || k.kind == MFG then EntityBase(k.kind) + k.key
    else EntityBase(k.kind) + SanitizeFree(k.key) + "_" + hash(k.key)
  }

  lemma {:induction false} StripDashesConcat(s: string, t: string)
    ensures StripDashes(s + t) == StripDashes(s) + StripDashes(t)
  {
    if s == "" {
      assert s + t == t;
    } else {
      StripDashesConcat(s[1..], t);
      assert (s + t)[1..] == s[1..] + t && (s + t)[0] == s[0];
    }
  }

  lemma {:induction false} StripDashesFixed(s: string)
    requires '-' !in s
    ensures StripDashes(s) == s
  {
    if s != "" {
      StripDashesFixed(s[1..]);
    }
  }

  /** A canonical UUID without its dashes: the 32 digits, in order. */
  function UuidDigits(u: string): (r: string)
    requires IsCanonicalUUID(u)
    ensures |r| == 32
  {
    u[..8] + u[9..13] + u[14..18] + u[19..23] + u[24..]
  }

  lemma StripDashesOfUuid(u: string)
    requires IsCanonicalUUID(u)
    ensures StripDashes(u) == UuidDigits(u)
  {
    var a, b, c, d, e := u[..8], u[9..13], u[14..18], u[19..23], u[24..];
    assert u == a + "-" + b + "-" + c + "-" + d + "-" + e;
    StripGroup(a, b);
    StripGroup(a + "-" + b, c);
    StripGroup(a + "-" + b + "-" + c, d);
    StripGroup(a + "-" + b + "-" + c + "-" + d, e);
    StripDashesFixed(a);
  }

  lemma StripGroup(s: string, group: string)
    requires '-' !in group
    ensures StripDashes(s + "-" + group) == StripDashes(s) + group
  {
    StripDashesConcat(s + "-", group);
    StripDashesConcat(s, "-");
    StripDashesFixed(group);
    assert StripDashes("-") == "";
    assert StripDashes(s) + "" == StripDashes(s);
  }

  lemma UuidDigitsIsInjective(u: string, u': string)
    requires IsCanonicalUUID(u) && IsCanonicalUUID(u') && UuidDigits(u) == UuidDigits(u')
    ensures u == u'
  {
    var d, d' := UuidDigits(u), UuidDigits(u');
    assert u[..8] == d[..8] && u[9..13] == d[8..12] && u[14..18] == d[12..16] && u[19..23] == d[16..20]
      && u[24..] == d[20..];
    assert u'[..8] == d'[..8] && u'[9..13] == d'[8..12] && u'[14..18] == d'[12..16] && u'[19..23] == d'[16..20]
      && u'[24..] == d'[20..];
    assert u == u[..8] + "-" + u[9..13] + "-" + u[14..18] + "-" + u[19..23] + "-" + u[24..];
    assert u' == u'[..8] + "-" + u'[9..13] + "-" + u'[14..18] + "-" + u'[19..23] + "-" + u'[24..];
  }

  lemma StripDashesOfIBeaconText(u: string, major: uint16, minor: uint16)
    requires IsCanonicalUUID(u)
    ensures StripDashes(IBeaconText(u, major, minor)) == IBeaconText(UuidDigits(u), major, minor)
  {
    var tail := "_" + Decimal(major) + "_" + Decimal(minor);
    assert IBeaconText(u, major, minor) == u + tail;
    assert IBeaconText(UuidDigits(u), major, minor) == UuidDigits(u) + tail;
    StripDashesConcat(u, tail);
    StripDashesOfUuid(u);
    StripDashesFixed(tail);
  }

  /** Stripping the dashes out of an iBeacon key loses nothing. */
  lemma StripDashesIsInjectiveOnKeys(k: BeaconKey, k': BeaconKey)
    requires IsIBeaconKey(k) && IsIBeaconKey(k') && StripDashes(k.key) == StripDashes(k'.key)
    ensures k == k'
  {
    var u: string, major: uint16, minor: uint16 :| IsCanonicalUUID(u) && k.key == IBeaconText(u, major, minor);
    var u': string, major': uint16, minor': uint16 :| IsCanonicalUUID(u') && k'.key == IBeaconText(u', major', minor');
    StripDashesOfIBeaconText(u, major, minor);
    StripDashesOfIBeaconText(u', major', minor');
    IBeaconTextIsInjective(UuidDigits(u), major, minor, UuidDigits(u'), major', minor');
    UuidDigitsIsInjective(u, u');
  }

  /** Entity ids of different kinds differ: no base is a prefix of another. */
  lemma KindsNeverCollide(k: BeaconKey, k': BeaconKey, hash: string -> string)
    requires KnownKind(k.kind) && KnownKind(k'.kind) && EntityID(k, hash) == EntityID(k', hash)
    ensures k.kind == k'.kind
  {
    var e, e' := EntityID(k, hash), EntityID(k', hash);
    assert EntityBase(k.kind) <= e && EntityBase(k'.kind) <= e';
    assert e[9] == k.kind[0] && e'[9] == k'.kind[0];
    if k.kind[0] == 'e' {
      assert e[20] == k.kind[11] && e'[20] == k'.kind[11];
    }
  }

  predicate FreeForm(kind: string) { kind == EDDYSTONE_URL || kind == NAME }

  /**
   * Two identities get the same entity id exactly when they are the same identity, or are free-form keys of
   * one kind that agree on both the readable part and the short hash.
   */
  lemma EntityIdCollisions(k: BeaconKey, k': BeaconKey, hash: string -> string)
    requires Constructed(k) && Constructed(k') && IsShortHash(hash)
    ensures EntityID(k, hash) == EntityID(k', hash) <==>
      || k == k'
      || (k.kind == k'.kind && FreeForm(k.kind) && hash(k.key) == hash(k'.key)
        && SanitizeFree(k.key) == SanitizeFree(k'.key))
  {
    if EntityID(k, hash) == EntityID(k', hash) {
      KindsNeverCollide(k, k', hash);
      var base := EntityBase(k.kind);
      if k.kind == IBEACON {
        EqualHeads(base, StripDashes(k.key), base, StripDashes(k'.key));
        StripDashesIsInjectiveOnKeys(k, k');
      } else if FreeForm(k.kind) {
        var r, r' := SanitizeFree(k.key), SanitizeFree(k'.key);
        var h, h' := hash(k.key), hash(k'.key);
        assert |base + r + "_"| == |base + r' + "_"|;
        EqualHeads(base + r + "_", h, base + r' + "_", h');
        assert base + r + "_" == base + (r + "_") && base + r' + "_" == base + (r' + "_");
        EqualHeads(base, r + "_", base, r' + "_");
        EqualHeads(r, "_", r', "_");
      } else {
        EqualHeads(base, k.key, base, k'.key);
      }
    }
  }

  /** A slug and the beginnings of entity ids, spelled out. */
  lemma KnownTexts()
    ensures Slug(BeaconKey("name", "Tag 1")) == "name.Tag 1"
    ensures EntityBase(IBEACON) == "briihass_ibeacon_" && EntityBase(EDDYSTONE_UID) == "briihass_eddystone_uid_"
    ensures EntityBase(EDDYSTONE_URL) == "briihass_eddystone_url_"
    ensures EntityBase(NAME) == "briihass_name_" && EntityBase(MFG) == "briihass_mfg_"
    ensures IBeaconText("u", 20, 3) == "u_20_3"
  {
    assert Decimal(20) == Decimal(2) + "0" && Decimal(2) == "2" && Decimal(3) == "3";
  }

  /** Entity ids: an iBeacon's key without dashes, a UID's key as it is, a free-form key's readable part and hash. */
  lemma KnownEntityIds(hash: string -> string)
    ensures EntityID(BeaconKey(EDDYSTONE_UID, "ab_cd"), hash) == EntityBase(EDDYSTONE_UID) + "ab_cd"
    ensures EntityID(BeaconKey(IBEACON, "a-b_1_2"), hash) == EntityBase(IBEACON) + "ab_1_2"
    ensures EntityID(BeaconKey(NAME, "Tag 1"), hash) == EntityBase(NAME) + "tag_1" + "_" + hash("Tag 1")
  {
    StripOne();
    SanitizeOne();
  }

  lemma StripOne()
    ensures StripDashes("a-b_1_2") == "ab_1_2"
  {
    StripDashesFixed("a");
    StripDashesFixed("b_1_2");
    StripGroup("a", "b_1_2");
    assert "a" + "-" + "b_1_2" == "a-b_1_2";
  }

  lemma SanitizeOne()
    ensures SanitizeFree("Tag 1") == "tag_1"
  {
    var s := "tag 1";
    assert Lower("Tag 1") == s;
    assert s[..4][..3] == s[..3] && s[..3][..2] == s[..2] && s[..2][..1] == s[..1] && s[..1][..0] == "" && s == s[..5];
    assert Readable(s[..1]) == "t";
    assert Readable(s[..2]) == "ta";
    assert Readable(s[..3]) == "tag";
    assert Readable(s[..4]) == "tag_";
    assert Readable(s) == "tag_1";
  }
}
