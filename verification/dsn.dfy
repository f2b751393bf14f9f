/**
 * Connection strings (main.go:61-74, 97-100): the base data source name
 * built from the user, password and address settings, and the database
 * name taken from the last space-separated token of a `Connect` entry's
 * argument.
 */
module Dsn {

  predicate NoChar(s: string, x: char)
  {
    forall i :: 0 <= i < |s| ==> s[i] != x
  }

  /** The base name: `user[:pass]@` when a user is set (the password part
      only when it is non-empty), then the address, then `/`. */
  function BaseDsn(user: string, pass: string, addr: string): (d: string)
    ensures |d| > 0 && d[|d| - 1] == '/'
    ensures user == [] ==> d == addr + "/"
    ensures user != [] && pass == [] ==> d == user + "@" + addr + "/"
    ensures user != [] && pass != [] ==> d == user + ":" + pass + "@" + addr + "/"
  {
    Credentials(user, pass) + addr + "/"
  }

  function Credentials(user: string, pass: string): string
  {
    if user == [] then []
    else if pass == [] then user + "@"
    else user + ":" + pass + "@"
  }

  /** The settings a base name was built from, as far as it records them. */
  datatype Settings = Settings(user: string, pass: string, addr: string)

  /** Index of the last occurrence of `x` in `s` (|s| when there is none). */
  function LastIndexOf(s: string, x: char): (k: nat)
    ensures k == |s| || (k < |s| && s[k] == x && NoChar(s[k + 1..], x))
    ensures k == |s| ==> NoChar(s, x)
    decreases |s|
  {
    if |s| == 0 then 0
    else if s[|s| - 1] == x then |s| - 1
    else
      var k := LastIndexOf(s[..|s| - 1], x);
      if k == |s| - 1 then |s| else k
  }

  /** Index of the first occurrence of `x` in `s` (|s| when there is none). */
  function IndexOf(s: string, x: char): (k: nat)
    ensures k <= |s|
    ensures NoChar(s[..k], x)
    ensures k < |s| ==> s[k] == x
    decreases |s|
  {
    if |s| == 0 || s[0] == x then 0 else 1 + IndexOf(s[1..], x)
  }

  /** Reads the settings back from a base name: the credentials end at the
      last `@`, the user ends at the first `:` of the credentials. */
  function ParseDsn(d: string): (r: Settings)
    requires |d| > 0 && d[|d| - 1] == '/'
  {
    var body := d[..|d| - 1];
    var at := LastIndexOf(body, '@');
    if at == |body| then Settings([], [], body)
    else
      var cred := body[..at];
      var colon := IndexOf(cred, ':');
      if colon == |cred| then Settings(cred, [], body[at + 1..])
      else Settings(cred[..colon], cred[colon + 1..], body[at + 1..])
  }

  /** Building and reading back agree, provided the user has no `:` or
      `@` and the address has no `@`.  A password given without a user is
      dropped: it never reaches the base name. */
  lemma ParseBaseDsn(user: string, pass: string, addr: string)
    requires user != [] ==> NoChar(user, ':') && NoChar(user, '@')
    requires NoChar(addr, '@')
    ensures ParseDsn(BaseDsn(user, pass, addr)) == Settings(user, if user == [] then [] else pass, addr)
  {
    var d := BaseDsn(user, pass, addr);
    var cred := Credentials(user, pass);
    var body := d[..|d| - 1];
    assert body == cred + addr;
    if user == [] {
      assert body == addr;
    } else {
      var c := cred[..|cred| - 1];
      assert cred == c + "@";
      LastIndexAfter(c, addr, '@');
      assert body[..|c|] == c;
      assert body[|c| + 1..] == addr;
      if pass == [] {
        assert c == user;
      } else {
        assert c == user + ":" + pass;
        FirstIndexAfter(user, pass, ':');
      }
    }
  }

  /** The last `@` of `c + "@" + addr` is the one after `c` when `addr`
      has none. */
  lemma {:induction false} LastIndexAfter(c: string, addr: string, x: char)
    requires NoChar(addr, x)
    ensures LastIndexOf(c + [x] + addr, x) == |c|
    decreases |addr|
  {
    var s := c + [x] + addr;
    if |addr| > 0 {
      var a := addr[..|addr| - 1];
      assert s[..|s| - 1] == c + [x] + a;
      assert s[|s| - 1] == addr[|addr| - 1];
      LastIndexAfter(c, a, x);
    }
  }

  /** The first `:` of `user + ":" + pass` is the one after `user` when
      `user` has none. */
  lemma {:induction false} FirstIndexAfter(user: string, pass: string, x: char)
    requires NoChar(user, x)
    ensures IndexOf(user + [x] + pass, x) == |user|
    decreases |user|
  {
    var s := user + [x] + pass;
    if |user| > 0 {
      assert s[1..] == user[1..] + [x] + pass;
      assert s[0] == user[0];
      FirstIndexAfter(user[1..], pass, x);
    }
  }

  /** `parts[len(parts)-1]` of `strings.Split(arg, " ")`: the text after
      the last space, or all of `arg` when it has none. */
  function LastToken(arg: string): (db: string)
    ensures NoChar(db, ' ')
    ensures |db| <= |arg| && arg[|arg| - |db|..] == db
    ensures |db| == |arg| || arg[|arg| - |db| - 1] == ' '
  {
    var k := LastIndexOf(arg, ' ');
    if k == |arg| then arg else arg[k + 1..]
  }

  /** The token is unique: any space-free tail that follows a space, or is
      the whole argument, is the last token. */
  lemma LastTokenUnique(arg: string, db: string)
    requires NoChar(db, ' ') && |db| <= |arg| && arg[|arg| - |db|..] == db
    requires |db| == |arg| || arg[|arg| - |db| - 1] == ' '
    ensures LastToken(arg) == db
  {
    var t := LastToken(arg);
    assert |t| == |db|;
  }

  /** A `Connect` argument of the usual shape `user@host on db` names `db`. */
  lemma ConnectTarget(prefix: string, db: string)
    requires NoChar(db, ' ')
    ensures LastToken(prefix + " " + db) == db
  {
    var arg := prefix + " " + db;
    assert arg[|arg| - |db|..] == db;
    assert arg[|arg| - |db| - 1] == ' ';
    LastTokenUnique(arg, db);
  }

  /** The data source name a `Connect` entry opens (main.go:97-100). */
  function SessionDsn(base: string, arg: string): (d: string)
    ensures |d| >= |base| && d[..|base|] == base
    ensures d[|base|..] == LastToken(arg)
  {
    base + LastToken(arg)
  }
}
