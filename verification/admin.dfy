/**
 * The admin panel's user list: adding a user with required-field and duplicate-email checks,
 * deleting by id, toggling the admin flag, clearing the list, and the name/email search.
 * The `users` state is a sequence of records; ids and timestamps are inputs.
 */
module Admin {
  import opened Text
  import opened Seqs

  datatype User = User(id: string, name: string, email: string, admin: bool, createdAt: int)

  const RequiredMessage: string := "Name and email are required."
  const DuplicateMessage: string := "A user with that email already exists."
  const AddedMessage: string := "User added."

  /** The user list after an add attempt and the message the attempt shows. */
  datatype AddResult = AddResult(users: seq<User>, message: string)

  /** Two emails are the same address when they agree after lower-casing. */
  predicate SameEmail(a: string, b: string)
  {
    Lower(a) == Lower(b)
  }

  /** `users.some((u) => u.email.toLowerCase() === email.toLowerCase())`. */
  predicate EmailTaken(users: seq<User>, email: string)
    ensures EmailTaken(users, email) <==> exists u :: u in users && SameEmail(u.email, email)
    decreases |users|
  {
    users != [] && (SameEmail(users[0].email, email) || EmailTaken(users[1..], email))
  }

  /** No two users share an email, ignoring case. */
  ghost predicate DistinctEmails(users: seq<User>)
  {
    forall i, j :: 0 <= i < j < |users| ==> !SameEmail(users[i].email, users[j].email)
  }

  /**
   * `addUser`: trims both fields, rejects an empty one, rejects an email already in use (ignoring
   * case), and otherwise puts a new non-admin user with the given id and time at the front.
   */
  function AddUser(users: seq<User>, name: string, email: string, newId: string, now: int): (r: AddResult)
    ensures Trim(name) == [] || Trim(email) == [] ==> r == AddResult(users, RequiredMessage)
    ensures (Trim(name) != [] && Trim(email) != [] && exists u :: u in users && SameEmail(u.email, Trim(email))) ==>
              r == AddResult(users, DuplicateMessage)
    ensures r.message == AddedMessage <==>
              Trim(name) != [] && Trim(email) != [] && forall u :: u in users ==> !SameEmail(u.email, Trim(email))
    ensures r.message == AddedMessage ==>
              && |r.users| == |users| + 1
              && r.users[1..] == users
              && r.users[0] == User(newId, Trim(name), Trim(email), false, now)
  {
    var trimmedName := Trim(name);
    var trimmedEmail := Trim(email);
    if trimmedName == [] || trimmedEmail == [] then AddResult(users, RequiredMessage)
    else if EmailTaken(users, trimmedEmail) then AddResult(users, DuplicateMessage)
    else AddResult([User(newId, trimmedName, trimmedEmail, false, now)] + users, AddedMessage)
  }

  /** A successful add keeps emails distinct; a rejected one leaves the list as it was. */
  lemma AddUserKeepsDistinctEmails(users: seq<User>, name: string, email: string, newId: string, now: int)
    requires DistinctEmails(users)
    ensures DistinctEmails(AddUser(users, name, email, newId, now).users)
  {
    var r := AddUser(users, name, email, newId, now);
    if r.message == AddedMessage {
      forall i, j | 0 <= i < j < |r.users| ensures !SameEmail(r.users[i].email, r.users[j].email) {
        if i == 0 {
          assert r.users[j] == users[j - 1];
          assert users[j - 1] in users;
        } else {
          assert r.users[i] == users[i - 1] && r.users[j] == users[j - 1];
        }
      }
    }
  }

  predicate HasOtherId(u: User, id: string)
  {
    u.id != id
  }

  /** `deleteUser`: once confirmed, keeps the users whose id differs, in order. */
  function DeleteUser(users: seq<User>, id: string, confirmed: bool): (r: seq<User>)
    ensures !confirmed ==> r == users
    ensures confirmed ==> forall u :: u in r <==> u in users && u.id != id
    ensures confirmed ==> forall u :: multiset(r)[u] == if u.id != id then multiset(users)[u] else 0
    ensures confirmed ==> IsSubsequence(r, users)
  {
    if !confirmed then users else Filter(users, u => HasOtherId(u, id))
  }

  /** Deleting users keeps emails distinct. */
  lemma DeleteUserKeepsDistinctEmails(users: seq<User>, id: string, confirmed: bool)
    requires DistinctEmails(users)
    ensures DistinctEmails(DeleteUser(users, id, confirmed))
  {
    var rel := (a: User, b: User) => !SameEmail(a.email, b.email);
    assert Pairwise(users, rel);
    FilterKeepsPairwise(users, u => HasOtherId(u, id), rel);
  }

  /** `toggleAdmin`: flips the admin flag of the users with that id and leaves everything else as it was. */
  function ToggleAdmin(users: seq<User>, id: string): (r: seq<User>)
    ensures |r| == |users|
    ensures forall i :: 0 <= i < |users| ==>
              && r[i].id == users[i].id && r[i].name == users[i].name
              && r[i].email == users[i].email && r[i].createdAt == users[i].createdAt
              && (r[i].admin != users[i].admin <==> users[i].id == id)
  {
    seq(|users|, i requires 0 <= i < |users| =>
      if users[i].id == id then users[i].(admin := !users[i].admin) else users[i])
  }

  /** Toggling the same id twice restores the list. */
  lemma ToggleAdminTwice(users: seq<User>, id: string)
    ensures ToggleAdmin(ToggleAdmin(users, id), id) == users
  {
    var r := ToggleAdmin(ToggleAdmin(users, id), id);
    forall i | 0 <= i < |users| ensures r[i] == users[i] {
      assert r[i].admin == users[i].admin;
    }
  }

  /** Toggling admin rights never touches emails, so distinct emails stay distinct. */
  lemma ToggleAdminKeepsDistinctEmails(users: seq<User>, id: string)
    requires DistinctEmails(users)
    ensures DistinctEmails(ToggleAdmin(users, id))
  {
  }

  /** `clearAll`: once confirmed, no users remain. */
  function ClearAll(users: seq<User>, confirmed: bool): (r: seq<User>)
    ensures confirmed ==> r == []
    ensures !confirmed ==> r == users
  {
    if confirmed then [] else users
  }

  /** The search predicate: the lower-cased name or email includes the lower-cased search text. */
  predicate MatchesSearch(u: User, search: string)
  {
    Contains(Lower(u.name), Lower(search)) || Contains(Lower(u.email), Lower(search))
  }

  /** The lower-cased search text occurs somewhere in the lower-cased name or email. */
  ghost predicate Mentions(u: User, search: string)
  {
    (exists i :: OccursAt(Lower(u.name), Lower(search), i)) || (exists i :: OccursAt(Lower(u.email), Lower(search), i))
  }

  /** `filtered`: the users matching the search, in list order. */
  function Search(users: seq<User>, search: string): (r: seq<User>)
    ensures forall u :: u in r <==> u in users && Mentions(u, search)
    ensures forall u :: multiset(r)[u] == if Mentions(u, search) then multiset(users)[u] else 0
    ensures IsSubsequence(r, users)
  {
    var r := Filter(users, u => MatchesSearch(u, search));
    assert forall u :: MatchesSearch(u, search) <==> Mentions(u, search) by {
      forall u ensures MatchesSearch(u, search) <==> Mentions(u, search) {
        ContainsIffOccurs(Lower(u.name), Lower(search));
        ContainsIffOccurs(Lower(u.email), Lower(search));
      }
    }
    r
  }

  /** An empty search lists every user. */
  lemma SearchEmptyIsEverything(users: seq<User>)
    ensures Search(users, "") == users
  {
    forall i | 0 <= i < |users| ensures MatchesSearch(users[i], "") {
      ContainsEmpty(Lower(users[i].name));
    }
    FilterAll(users, u => MatchesSearch(u, ""));
  }

  /** The search ignores the case of the search text. */
  lemma SearchIgnoresCase(users: seq<User>, search: string)
    ensures Search(users, Upper(search)) == Search(users, search)
    ensures Search(users, Lower(search)) == Search(users, search)
  {
    LowerOfUpper(search);
    LowerIdempotent(search);
    FilterExtensional(users, u => MatchesSearch(u, Upper(search)), u => MatchesSearch(u, search));
    FilterExtensional(users, u => MatchesSearch(u, Lower(search)), u => MatchesSearch(u, search));
  }
}
