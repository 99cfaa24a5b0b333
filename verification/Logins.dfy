/**
 Logging in, after `find` and `authenticate` of kernel/src/users/mod.rs: which password opens an
 account after the operations of `Accounts`.
 */
module Logins {
  import opened Options
  import opened Accounts
  import Sha256

  /** `find`: the first record with the name. */
  function Find(us: seq<User>, name: string): (r: Option<User>)
    ensures r.Some? ==> r.value in us && r.value.name == name
    ensures r.None? ==> !Taken(us, name)
  {
    if us == [] then None
    else if us[0].name == name then Some(us[0])
    else Find(us[1..], name)
  }

  function Login(file: Option<string>, name: string, password: seq<bv8>): Option<User> {
    var user := Find(Load(file), name);
    if user.Some? && HashPassword(password) == user.value.hash then user else None
  }

  /** `constant_time_eq` */
  method ConstantTimeEq(a: seq<bv8>, b: seq<bv8>) returns (eq: bool)
    ensures eq <==> a == b
  {
    if |a| != |b| {
      return false;
    }
    var diff: bv8 := 0;
    for i := 0 to |a|
      invariant diff == 0 <==> a[..i] == b[..i]
    {
      assert a[..i + 1] == a[..i] + [a[i]] && b[..i + 1] == b[..i] + [b[i]];
      OrZero(diff, a[i] ^ b[i]);
      XorZero(a[i], b[i]);
      diff := diff | (a[i] ^ b[i]);
    }
    assert a[..|a|] == a && b[..|b|] == b;
    return diff == 0;
  }

  lemma OrZero(x: bv8, y: bv8)
    ensures x | y == 0 <==> x == 0 && y == 0
  {
  }

  lemma XorZero(x: bv8, y: bv8)
    ensures x ^ y == 0 <==> x == y
  {
  }

  /** `authenticate` */
  method Authenticate(accounts: AccountFile, name: string, password: seq<bv8>) returns (r: Option<User>)
    ensures r == Login(accounts.content, name, password)
  {
    hide Load;
    var us := accounts.LoadUsers();
    var i := 0;
    while i < |us| && us[i].name != name
      invariant i <= |us| && Find(us[i..], name) == Find(us, name)
    {
      i := i + 1;
    }
    if i == |us| {
      return None;
    }
    r := if HashPassword(password) == us[i].hash then Some(us[i]) else None;
  }

  // ---------------------------------------------------------------------------
  // Equal texts come from equal digests
  // ---------------------------------------------------------------------------

  function Nibble(c: char): int { if c <= '9' then c as int - '0' as int else c as int - 'a' as int + 10 }

  lemma NibbleOf(d: bv8)
    requires d < 16
    ensures Nibble(HexDigit(d)) == d as int
  {
  }

  lemma HalvesOf(x: bv8, y: bv8)
    requires x >> 4 == y >> 4 && x & 0x0f == y & 0x0f
    ensures x == y
  {
  }

  lemma {:induction false} HexInjective(a: seq<bv8>, b: seq<bv8>)
    requires Hex(a) == Hex(b)
    ensures a == b
  {
    hide HexDigit;
    if a != [] && b != [] {
      var x, y := Hex(a), Hex(b);
      assert x[0] == HexDigit(a[0] >> 4) && x[1] == HexDigit(a[0] & 0x0f) && x[2..] == Hex(a[1..]);
      assert y[0] == HexDigit(b[0] >> 4) && y[1] == HexDigit(b[0] & 0x0f) && y[2..] == Hex(b[1..]);
      NibbleOf(a[0] >> 4);
      NibbleOf(b[0] >> 4);
      NibbleOf(a[0] & 0x0f);
      NibbleOf(b[0] & 0x0f);
      HalvesOf(a[0], b[0]);
      HexInjective(a[1..], b[1..]);
      assert a == [a[0]] + a[1..] && b == [b[0]] + b[1..];
    }
  }

  lemma SameHash(p: seq<bv8>, q: seq<bv8>)
    ensures HashPassword(p) == HashPassword(q) <==> Sha256.Hash(p) == Sha256.Hash(q)
  {
    hide Sha256.Hash, Hex;
    if HashPassword(p) == HashPassword(q) {
      HexInjective(Sha256.Hash(p), Sha256.Hash(q));
    }
  }

  // ---------------------------------------------------------------------------
  // Which password is accepted
  // ---------------------------------------------------------------------------

  lemma {:induction false} FindSnoc(us: seq<User>, u: User, name: string)
    ensures Find(us + [u], name) == if Taken(us, name) then Find(us, name) else if u.name == name then Some(u) else None
  {
    if us != [] {
      var rest := us[1..];
      assert (us + [u])[1..] == rest + [u];
      FindSnoc(rest, u, name);
      assert forall k :: 0 <= k < |rest| ==> rest[k] == us[k + 1];
      assert Taken(us, name) ==> us[0].name == name || Taken(rest, name) by {
        if Taken(us, name) && us[0].name != name {
          var k :| 0 <= k < |us| && us[k].name == name;
          assert rest[k - 1].name == name;
        }
      }
    }
  }

  /**
   A new account opens with exactly the passwords of the same digest; it has a uid of its own from
   1000 up, the same gid and its own home directory. The other accounts are as before.
   */
  lemma CreatedLogsIn(file: Option<string>, name: string, password: seq<bv8>, who: string, attempt: seq<bv8>)
    requires Accepts(Load(file), Create(name, password))
    ensures var now := FileStep(file, Create(name, password));
            && (who == name ==> (Login(now, who, attempt).Some? <==> Sha256.Hash(attempt) == Sha256.Hash(password)))
            && (who == name && Login(now, who, attempt).Some? ==>
                  var u := Login(now, who, attempt).value;
                  && u.name == name && u.uid == u.gid >= 1000 && !HasUid(Load(file), u.uid)
                  && u.home == "/home/" + name && u.shell == "/bin/sh")
            && (who != name ==> Login(now, who, attempt) == Login(file, who, attempt))
  {
    hide Load, FileStep, Sha256.Hash, Hex, NextUid, HashPassword, NameValid;
    var us := Load(file);
    StepRefines(file, Create(name, password));
    FindSnoc(us, NewUser(name, password, NextUid(us)), who);
    SameHash(attempt, password);
  }

  lemma {:induction false} FindDistinct(us: seq<User>, k: nat)
    requires k < |us| && Distinct(us)
    ensures Find(us, us[k].name) == Some(us[k])
  {
    if k > 0 {
      assert us[0].name != us[k].name && us[1..][k - 1] == us[k];
      FindDistinct(us[1..], k - 1);
    }
  }

  lemma Untaken(us: seq<User>, name: string)
    requires !Taken(us, name)
    ensures Find(us, name) == None
  {
  }

  lemma FirstIsOnly(us: seq<User>, uid: nat, k: nat)
    requires Distinct(us) && k < |us|
    ensures FirstWith(us, uid, k) <==> us[k].uid == uid
  {
  }

  /**
   After a password change the account with that uid opens with exactly the passwords of the new
   digest, and every other account as before.
   */
  lemma ChangedLogsIn(file: Option<string>, uid: nat, password: seq<bv8>, who: string, attempt: seq<bv8>)
    requires Distinct(Load(file)) && Accepts(Load(file), SetPassword(uid, password))
    ensures var was, now := Find(Load(file), who), FileStep(file, SetPassword(uid, password));
            if was.Some? && was.value.uid == uid
            then Login(now, who, attempt).Some? <==> Sha256.Hash(attempt) == Sha256.Hash(password)
            else Login(now, who, attempt) == Login(file, who, attempt)
  {
    hide Load, FileStep, Sha256.Hash, Hex, HashPassword, WithPassword, FirstWith, Find;
    var us, hash := Load(file), HashPassword(password);
    StepRefines(file, SetPassword(uid, password));
    SameHash(attempt, password);
    var r := WithPassword(us, uid, hash);
    WithPasswordAt(us, uid, hash);
    PasswordKeeps(us, uid, hash);
    if k :| 0 <= k < |us| && us[k].name == who {
      FindDistinct(us, k);
      FindDistinct(r, k);
      FirstIsOnly(us, uid, k);
    } else {
      assert forall k :: 0 <= k < |r| ==> r[k].name == us[k].name;
      Untaken(us, who);
      Untaken(r, who);
    }
  }

  /** A deleted account opens with no password, and every other one as before. */
  lemma DeletedStaysOut(file: Option<string>, uid: nat, who: string, attempt: seq<bv8>)
    requires Distinct(Load(file)) && Accepts(Load(file), Delete(uid))
    ensures var was, now := Find(Load(file), who), FileStep(file, Delete(uid));
            if was.Some? && was.value.uid == uid then Login(now, who, attempt) == None
            else Login(now, who, attempt) == Login(file, who, attempt)
  {
    hide Load, FileStep, HashPassword, WithoutUid;
    var us := Load(file);
    StepRefines(file, Delete(uid));
    WithoutUidKeeps(us, uid);
    SurvivorFound(us, WithoutUid(us, uid), uid, who);
  }

  lemma SurvivorFound(us: seq<User>, r: seq<User>, uid: nat, who: string)
    requires Distinct(us) && Distinct(r) && forall u :: u in r <==> u in us && u.uid != uid
    ensures Find(r, who) == if Find(us, who).Some? && Find(us, who).value.uid == uid then None else Find(us, who)
  {
    hide Find, Distinct;
    var was := Find(us, who);
    if was.Some? && was.value.uid != uid {
      assert was.value in r;
      var k :| 0 <= k < |r| && r[k] == was.value;
      FindDistinct(r, k);
    } else {
      forall k | 0 <= k < |r| ensures r[k].name != who {
        assert r[k] in us;
        var j :| 0 <= j < |us| && us[j] == r[k];
        FindDistinct(us, j);
      }
      Untaken(r, who);
    }
  }
}
