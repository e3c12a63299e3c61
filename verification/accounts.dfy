/** The `users` table as a map from username to the stored password hash.
    Hashing is werkzeug's: the salted hash of a new password is produced
    outside the model and handed in, and `check(hash, password)` stands for
    `check_password_hash`. */
module Accounts {
  import opened Wrappers

  type Users = map<string, string>

  /** INSERT INTO users: refused (None, the UNIQUE violation) when the
      username is taken; otherwise exactly that user is added with `hash`. */
  function Register(u: Users, name: string, hash: string): (r: Option<Users>)
    ensures r.None? <==> name in u
    ensures r.Some? ==> r.value.Keys == u.Keys + {name} && r.value[name] == hash
    ensures r.Some? ==> forall k :: k in u ==> r.value[k] == u[k]
  {
    if name in u then None else Some(u[name := hash])
  }

  /** A login attempt is accepted exactly when a row for `name` exists and
      the password checks against its stored hash. An unknown user and a
      wrong password are not told apart. */
  predicate Verify(u: Users, name: string, password: string, check: (string, string) -> bool)
  {
    name in u && check(u[name], password)
  }

  /** A user who registered with a hash that accepts `password` can log in
      with `password`. */
  lemma RegisterThenVerify(u: Users, name: string, password: string, hash: string,
                           check: (string, string) -> bool)
    requires name !in u && check(hash, password)
    ensures Register(u, name, hash).Some?
    ensures Verify(Register(u, name, hash).value, name, password, check)
  {
  }

  /** A refused registration changes nobody's login, including the owner of
      the name; a successful one changes no other user's. */
  lemma RegisterKeepsOtherLogins(u: Users, name: string, hash: string, other: string,
                                 password: string, check: (string, string) -> bool)
    requires other != name || name in u
    ensures var u' := Register(u, name, hash).GetOr(u);
            Verify(u', other, password, check) == Verify(u, other, password, check)
  {
  }
}
