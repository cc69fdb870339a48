/**
 * The role passwords of the parent and teacher modes (`roleAuth.ts`): a
 * 31-multiplier hash folded in 32-bit two's complement, a password table in
 * `localStorage` under `password_<user>_<role>`, and a session flag in
 * `sessionStorage` under `auth_<user>_<role>`.
 *
 * The table operations are specified as functions on the stored map; the
 * methods, which read and write a `BrowserStorage.Storage`, are proved to
 * leave exactly those maps behind.
 */
module RoleAuth {
  import opened Wrappers
  import Text
  import BrowserStorage

  type Items = map<string, string>

  datatype RoleType = Parent | Teacher

  /** The role as it appears in keys. */
  function RoleName(r: RoleType): string {
    match r
    case Parent => "parent"
    case Teacher => "teacher"
  }

  /** The `localStorage` key of a password hash. */
  function PasswordKey(userId: string, r: RoleType): string {
    "password_" + userId + "_" + RoleName(r)
  }

  /** The `sessionStorage` key of an authenticated session (`authSessionKey`). */
  function SessionKey(userId: string, r: RoleType): string {
    "auth_" + userId + "_" + RoleName(r)
  }

  /** The value the session flag holds once set. */
  const Authenticated := "authenticated"

  // ---------------------------------------------------------------------------
  // Keys
  // ---------------------------------------------------------------------------

  /** Equal outer parts leave equal middles. */
  lemma Unwrap(pre: string, a: string, b: string, post: string)
    requires pre + a + post == pre + b + post
    ensures a == b
  {
    var s := pre + a + post;
    assert |a| == |b|;
    forall i | 0 <= i < |a| ensures a[i] == b[i] {
      assert a[i] == s[|pre| + i];
      assert b[i] == (pre + b + post)[|pre| + i];
    }
  }

  /** A key ends with the role's last letter, `t` for parent and `r` for teacher. */
  lemma RoleFromKey(prefix: string, u1: string, r1: RoleType, u2: string, r2: RoleType)
    requires prefix + u1 + "_" + RoleName(r1) == prefix + u2 + "_" + RoleName(r2)
    ensures u1 == u2 && r1 == r2
  {
    var k := prefix + u1 + "_" + RoleName(r1);
    assert k[|k| - 1] == RoleName(r1)[|RoleName(r1)| - 1];
    assert k[|k| - 1] == RoleName(r2)[|RoleName(r2)| - 1];
    assert r1 == r2;
    assert prefix + u1 + "_" + RoleName(r1) == prefix + u1 + ("_" + RoleName(r1));
    assert prefix + u2 + "_" + RoleName(r1) == prefix + u2 + ("_" + RoleName(r1));
    Unwrap(prefix, u1, u2, "_" + RoleName(r1));
  }

  /** Each (user, role) pair has its own password key and its own session key. */
  lemma KeysInjective(u1: string, r1: RoleType, u2: string, r2: RoleType)
    ensures PasswordKey(u1, r1) == PasswordKey(u2, r2) <==> u1 == u2 && r1 == r2
    ensures SessionKey(u1, r1) == SessionKey(u2, r2) <==> u1 == u2 && r1 == r2
  {
    if PasswordKey(u1, r1) == PasswordKey(u2, r2) {
      RoleFromKey("password_", u1, r1, u2, r2);
    }
    if SessionKey(u1, r1) == SessionKey(u2, r2) {
      RoleFromKey("auth_", u1, r1, u2, r2);
    }
  }

  // ---------------------------------------------------------------------------
  // The hash
  // ---------------------------------------------------------------------------

  const TwoTo31 := 0x8000_0000
  const TwoTo32 := 0x1_0000_0000

  /** JavaScript's `ToInt32`: the number's value modulo 2^32 in the signed range. */
  function ToInt32(x: int): (r: int)
    ensures -TwoTo31 <= r < TwoTo31
    ensures (x - r) % TwoTo32 == 0
  {
    var m := (x + TwoTo31) % TwoTo32;
    assert x + TwoTo31 == TwoTo32 * ((x + TwoTo31) / TwoTo32) + m;
    m - TwoTo31
  }

  /** Numbers that agree modulo 2^32 have the same `ToInt32`. */
  lemma ToInt32Congruent(x: int, y: int, k: int)
    requires x == y + k * TwoTo32
    ensures ToInt32(x) == ToInt32(y)
  {
    var a, b := ToInt32(x), ToInt32(y);
    var qa, qb := (x - a) / TwoTo32, (y - b) / TwoTo32;
    assert x - a == qa * TwoTo32;
    assert y - b == qb * TwoTo32;
    assert a - b == (k + qb - qa) * TwoTo32;
  }

  /** `ToInt32` leaves a number already in the signed range alone. */
  lemma ToInt32InRange(x: int)
    requires -TwoTo31 <= x < TwoTo31
    ensures ToInt32(x) == x
  {
    ToInt32Congruent(x, ToInt32(x), (x - ToInt32(x)) / TwoTo32);
    ToInt32Congruent(ToInt32(x), ToInt32(x), 0);
  }

  /**
   * The hash as the source states its intent: `h := int32(31 * h + unit)`
   * over the UTF-16 code units, from 0.
   */
  function HashFold(units: seq<int>): (h: int)
    ensures -TwoTo31 <= h < TwoTo31
  {
    if units == [] then 0
    else ToInt32(31 * HashFold(units[..|units| - 1]) + units[|units| - 1])
  }

  /** `simpleHash(s)`: the decimal text of the fold. */
  function HashText(s: string): string {
    Text.IntToString(HashFold(Text.Utf16(s)))
  }

  /** One loop step, `((h << 5) - h) + c` and then `& itself`, is the step of the fold. */
  lemma StepIsFold(h: int, c: int)
    ensures ToInt32(ToInt32(h * 32) - h + c) == ToInt32(31 * h + c)
  {
    var s := ToInt32(h * 32);
    var q := (h * 32 - s) / TwoTo32;
    assert h * 32 - s == q * TwoTo32;
    ToInt32Congruent(31 * h + c, s - h + c, q);
  }

  /** `simpleHash`, loop for loop: `hash << 5` is `ToInt32(hash * 32)`, `hash & hash` is `ToInt32(hash)`. */
  method SimpleHash(s: string) returns (h: string)
    ensures h == HashText(s)
  {
    var units := Text.Utf16(s);
    var hash := 0;
    for i := 0 to |units|
      invariant hash == HashFold(units[..i])
    {
      var c := units[i];
      var shifted := ToInt32(hash * 32);
      hash := shifted - hash + c;
      hash := ToInt32(hash);
      StepIsFold(HashFold(units[..i]), c);
      assert units[..i + 1][..i] == units[..i];
    }
    assert units[..|units|] == units;
    h := Text.IntToString(hash);
  }

  /** Two passwords have the same stored text exactly when their folds agree. */
  lemma HashTextSame(p: string, q: string)
    ensures HashText(p) == HashText(q) <==> HashFold(Text.Utf16(p)) == HashFold(Text.Utf16(q))
  {
    Text.ParseIntOfIntToString(HashFold(Text.Utf16(p)));
    Text.ParseIntOfIntToString(HashFold(Text.Utf16(q)));
  }

  /** The code units of a two-letter string below U+10000. */
  lemma Utf16OfPair(s: string)
    requires |s| == 2 && s[0] as int < 0x10000 && s[1] as int < 0x10000
    ensures Text.Utf16(s) == [s[0] as int, s[1] as int]
  {
    var first := s[..1];
    assert first[..0] == [];
    assert first == [s[0]];
    assert Text.CodeUnits(s[0]) == [s[0] as int];
    assert Text.CodeUnits(s[1]) == [s[1] as int];
    assert Text.Utf16(first) == [s[0] as int];
    assert s[..|s| - 1] == first;
  }

  /** The fold of two units below 2^16 never leaves the signed range. */
  lemma HashFoldOfPair(a: int, b: int)
    requires 0 <= a < 0x10000 && 0 <= b < 0x10000
    ensures HashFold([a, b]) == 31 * a + b
  {
    assert [a, b][..1] == [a];
    assert [a][..0] == [];
    ToInt32InRange(a);
    assert HashFold([a]) == a;
    ToInt32InRange(31 * a + b);
  }

  /** "Aa" and "BB" collide: 65 * 31 + 97 == 66 * 31 + 66 == 2112. */
  lemma HashCollision()
    ensures HashText("Aa") == HashText("BB")
  {
    Utf16OfPair("Aa");
    Utf16OfPair("BB");
    HashFoldOfPair(65, 97);
    HashFoldOfPair(66, 66);
  }

  // ---------------------------------------------------------------------------
  // The password table and the session flags, as maps
  // ---------------------------------------------------------------------------

  /** `isPasswordSet`: something is stored under the pair's key. */
  predicate PasswordSet(items: Items, userId: string, r: RoleType) {
    PasswordKey(userId, r) in items
  }

  /** `verifyPassword`: a non-empty stored hash that equals the hash of the attempt. */
  predicate Verifies(items: Items, userId: string, r: RoleType, password: string) {
    var k := PasswordKey(userId, r);
    k in items && items[k] != "" && items[k] == HashText(password)
  }

  /** The table after `setPassword`. */
  function WithPassword(items: Items, userId: string, r: RoleType, password: string): Items {
    items[PasswordKey(userId, r) := HashText(password)]
  }

  /** The table after `resetPassword`. */
  function WithoutPassword(items: Items, userId: string, r: RoleType): Items {
    items - {PasswordKey(userId, r)}
  }

  /** `isAuthenticated`: the flag holds exactly "authenticated". */
  predicate SessionOpen(items: Items, userId: string, r: RoleType) {
    var k := SessionKey(userId, r);
    k in items && items[k] == Authenticated
  }

  /** The session area after `setAuthSession`. */
  function WithSession(items: Items, userId: string, r: RoleType): Items {
    items[SessionKey(userId, r) := Authenticated]
  }

  /** The session area after `clearAuthSession`. */
  function WithoutSession(items: Items, userId: string, r: RoleType): Items {
    items - {SessionKey(userId, r)}
  }

  /** After `setPassword(u, r, p)` the password is set and `p` verifies. */
  lemma SetThenVerify(items: Items, userId: string, r: RoleType, password: string)
    ensures PasswordSet(WithPassword(items, userId, r, password), userId, r)
    ensures Verifies(WithPassword(items, userId, r, password), userId, r, password)
  {
    assert HashText(password) != "";
  }

  /**
   * After `setPassword(u, r, p)` an attempt `q` verifies exactly when its hash
   * equals that of `p`: the right password, and every password that collides with it.
   */
  lemma VerifyAfterSet(items: Items, userId: string, r: RoleType, password: string, attempt: string)
    ensures Verifies(WithPassword(items, userId, r, password), userId, r, attempt)
            <==> HashFold(Text.Utf16(attempt)) == HashFold(Text.Utf16(password))
  {
    HashTextSame(attempt, password);
  }

  /** A collision is accepted: the password "Aa" lets "BB" in. */
  lemma CollisionVerifies(items: Items, userId: string, r: RoleType)
    ensures Verifies(WithPassword(items, userId, r, "Aa"), userId, r, "BB")
  {
    HashCollision();
  }

  /** Nothing verifies for a pair without a stored hash; after a reset that is every password. */
  lemma ResetClears(items: Items, userId: string, r: RoleType, password: string)
    ensures !PasswordSet(items, userId, r) ==> !Verifies(items, userId, r, password)
    ensures !PasswordSet(WithoutPassword(items, userId, r), userId, r)
    ensures !Verifies(WithoutPassword(items, userId, r), userId, r, password)
  {
  }

  /** Setting or resetting one pair's password leaves every other pair's entry as it was. */
  lemma OtherPairsUntouched(items: Items, userId: string, r: RoleType, password: string, other: string, r': RoleType)
    requires other != userId || r' != r
    ensures var k := PasswordKey(other, r');
            (k in WithPassword(items, userId, r, password) <==> k in items)
            && (k in items ==> WithPassword(items, userId, r, password)[k] == items[k])
            && (k in WithoutPassword(items, userId, r) <==> k in items)
            && (k in items ==> WithoutPassword(items, userId, r)[k] == items[k])
  {
    KeysInjective(userId, r, other, r');
  }

  /** A session is open after `setAuthSession` and closed after `clearAuthSession`; other pairs keep theirs. */
  lemma SessionFlags(items: Items, userId: string, r: RoleType, other: string, r': RoleType)
    ensures SessionOpen(WithSession(items, userId, r), userId, r)
    ensures !SessionOpen(WithoutSession(items, userId, r), userId, r)
    ensures other != userId || r' != r ==>
              (SessionOpen(WithSession(items, userId, r), other, r') <==> SessionOpen(items, other, r'))
              && (SessionOpen(WithoutSession(items, userId, r), other, r') <==> SessionOpen(items, other, r'))
  {
    KeysInjective(userId, r, other, r');
  }

  // ---------------------------------------------------------------------------
  // The helpers over the browser's storage
  // ---------------------------------------------------------------------------

  /** `isPasswordSet(u, r)` on `localStorage`. */
  method IsPasswordSet(local: BrowserStorage.Storage, userId: string, r: RoleType) returns (stored: bool)
    ensures stored == PasswordSet(local.items, userId, r)
  {
    stored := local.GetItem(PasswordKey(userId, r)) != None;
  }

  /** `setPassword(u, r, p)`. */
  method SetPassword(local: BrowserStorage.Storage, userId: string, r: RoleType, password: string)
    modifies local
    ensures local.items == WithPassword(old(local.items), userId, r, password)
  {
    var key := PasswordKey(userId, r);
    var hashed := SimpleHash(password);
    local.SetItem(key, hashed);
  }

  /** `verifyPassword(u, r, p)`: false without a stored hash, else a comparison of hashes. */
  method VerifyPassword(local: BrowserStorage.Storage, userId: string, r: RoleType, password: string) returns (ok: bool)
    ensures ok == Verifies(local.items, userId, r, password)
  {
    var stored := local.GetItem(PasswordKey(userId, r));
    if stored == None || stored.value == "" {
      return false;
    }
    var hashed := SimpleHash(password);
    ok := stored.value == hashed;
  }

  /** `resetPassword(u, r)`. */
  method ResetPassword(local: BrowserStorage.Storage, userId: string, r: RoleType)
    modifies local
    ensures local.items == WithoutPassword(old(local.items), userId, r)
  {
    local.RemoveItem(PasswordKey(userId, r));
  }

  /** `setAuthSession(u, r)` on `sessionStorage`. */
  method SetAuthSession(session: BrowserStorage.Storage, userId: string, r: RoleType)
    modifies session
    ensures session.items == WithSession(old(session.items), userId, r)
  {
    session.SetItem(SessionKey(userId, r), Authenticated);
  }

  /** `isAuthenticated(u, r)`. */
  method IsAuthenticated(session: BrowserStorage.Storage, userId: string, r: RoleType) returns (open: bool)
    ensures open == SessionOpen(session.items, userId, r)
  {
    open := session.GetItem(SessionKey(userId, r)) == Some(Authenticated);
  }

  /** `clearAuthSession(u, r)`. */
  method ClearAuthSession(session: BrowserStorage.Storage, userId: string, r: RoleType)
    modifies session
    ensures session.items == WithoutSession(old(session.items), userId, r)
  {
    session.RemoveItem(SessionKey(userId, r));
  }
}
