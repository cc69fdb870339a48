/**
 * The member table and its lookup (`auth.ts`). The table is a plain
 * JavaScript object, so `USERS[memberId]` also finds the properties every
 * object inherits from `Object.prototype`; `LookupAsWritten` models that
 * read, and `ValidateUser` the own-key lookup the table is meant for.
 */
module Members {
  import opened Wrappers
  import opened ObjectLiteral

  datatype User = User(id: string, name: string)

  /** The entries of the `USERS` object literal, key and value, in the order written. */
  const Table: seq<(string, User)> := [
    ("68442921", User("68442921", "齋藤大洋")),
    ("68905181", User("68905181", "齋藤利嵩")),
    ("67022243", User("67022243", "笹島実弥子")),
    ("68923295", User("68923295", "杉山翔哉")),
    ("68923309", User("68923309", "杉山愛翔")),
    ("77777777", User("77777777", "德田創大")),
    ("68883679", User("68883679", "深作巴")),
    ("68895933", User("68895933", "福地美鈴")),
    ("68805713", User("68805713", "松下颯真")),
    ("11111111", User("11111111", "テスト生徒１")),
    ("22222222", User("22222222", "テスト生徒２")),
    ("33333333", User("33333333", "テスト生徒３")),
    ("44444444", User("44444444", "テスト生徒４")),
    ("55555555", User("55555555", "テスト生徒５")),
    ("66666666", User("66666666", "テスト生徒６"))
  ]

  /** The own properties of an object literal: a later entry overwrites an earlier one with the same key. */
  function FromEntries(es: seq<(string, User)>): map<string, User> {
    if es == [] then map[]
    else FromEntries(es[..|es| - 1])[es[|es| - 1].0 := es[|es| - 1].1]
  }

  /** `USERS`. */
  const Users: map<string, User> := FromEntries(Table)

  /** The keys of an object literal are its entries' keys. */
  lemma {:induction false} FromEntriesKeys(es: seq<(string, User)>)
    ensures forall k :: k in FromEntries(es) <==> exists i :: 0 <= i < |es| && es[i].0 == k
  {
    if es != [] {
      var init := es[..|es| - 1];
      FromEntriesKeys(init);
      assert FromEntries(es) == FromEntries(init)[es[|es| - 1].0 := es[|es| - 1].1];
      forall k | k in FromEntries(es) ensures exists i :: 0 <= i < |es| && es[i].0 == k {
        if k != es[|es| - 1].0 {
          var i :| 0 <= i < |init| && init[i].0 == k;
          assert es[i] == init[i];
        }
      }
      forall k | exists i :: 0 <= i < |es| && es[i].0 == k ensures k in FromEntries(es) {
        var i :| 0 <= i < |es| && es[i].0 == k;
        if i < |init| {
          assert init[i] == es[i];
        }
      }
    }
  }

  /** With distinct keys, an object literal has one property per entry. */
  lemma {:induction false} FromEntriesSize(es: seq<(string, User)>)
    requires forall i, j :: 0 <= i < j < |es| ==> es[i].0 != es[j].0
    ensures |FromEntries(es)| == |es|
  {
    if es != [] {
      var init := es[..|es| - 1];
      FromEntriesSize(init);
      FromEntriesKeys(init);
    }
  }

  /** When every entry's value carries its own key as `id`, so does every property. */
  lemma {:induction false} FromEntriesIds(es: seq<(string, User)>)
    requires forall i :: 0 <= i < |es| ==> es[i].1.id == es[i].0
    ensures forall k :: k in FromEntries(es) ==> FromEntries(es)[k].id == k
  {
    if es != [] {
      FromEntriesIds(es[..|es| - 1]);
    }
  }

  /** What `USERS[memberId]` evaluates to. */
  datatype Property = Member(user: User) | Prototype(name: string) | Undefined

  /** The table holds fifteen members. */
  lemma FifteenMembers()
    ensures |Users| == 15
  {
    FromEntriesSize(Table);
  }

  /** Every entry's `id` is its own key, and no member number is a name every object inherits. */
  lemma EntriesKeyedById()
    ensures forall k :: k in Users ==> Users[k].id == k
    ensures forall k :: k in Users ==> k !in Inherited
  {
    FromEntriesIds(Table);
    FromEntriesKeys(Table);
  }

  /** `USERS[memberId]`: an own entry first, then the prototype chain. */
  function LookupAsWritten(memberId: string): (p: Property)
    ensures p.Member? <==> memberId in Users
    ensures p.Prototype? <==> memberId in Inherited
  {
    EntriesKeyedById();
    if memberId in Users then Member(Users[memberId])
    else if memberId in Inherited then Prototype(memberId)
    else Undefined
  }

  /** `validateUser` as written: `USERS[memberId] || null`, which lets any truthy property through. */
  function ValidateUserAsWritten(memberId: string): (r: Option<Property>)
    ensures r.None? <==> LookupAsWritten(memberId).Undefined?
  {
    var p := LookupAsWritten(memberId);
    if p.Undefined? then None else Some(p)
  }

  /** The lookup the table is meant for: a member for an own key, `null` for anything else. */
  function ValidateUser(memberId: string): (r: Option<User>)
    ensures r.Some? <==> memberId in Users
    ensures r.Some? ==> r.value == Users[memberId]
  {
    if memberId in Users then Some(Users[memberId]) else None
  }

  /** A member found is the member asked for. */
  lemma FoundIsAskedFor(memberId: string)
    ensures ValidateUser(memberId).Some? ==> ValidateUser(memberId).value.id == memberId
  {
    EntriesKeyedById();
  }

  /** "constructor" is not a member number, yet the written lookup answers it with a non-null value that is no member. */
  lemma ConstructorPassesAsWritten()
    ensures ValidateUser("constructor") == None
    ensures ValidateUserAsWritten("constructor").Some?
    ensures !ValidateUserAsWritten("constructor").value.Member?
  {
    assert "constructor" in Inherited;
    EntriesKeyedById();
  }

  /** Away from the inherited names, the written lookup and the intended one agree. */
  lemma AsWrittenAgreesElsewhere(memberId: string)
    requires memberId !in Inherited
    ensures ValidateUserAsWritten(memberId).None? <==> ValidateUser(memberId).None?
    ensures ValidateUser(memberId).Some? ==> ValidateUserAsWritten(memberId) == Some(Member(ValidateUser(memberId).value))
  {
  }
}
