/**
 The account file of kernel/src/users/mod.rs: one line per account, seven fields separated by
 colons. Parsing and serialising are proved inverse to each other exactly on the lists that the
 format can carry, and the account operations are followed through the stored text.
 */
module Accounts {
  import opened Options
  import Sha256

  const U32_MAX: nat := 0xFFFF_FFFF

  type U32 = n: nat | n <= U32_MAX

  datatype User = User(name: string, hash: string, uid: U32, gid: U32, gecos: string, home: string, shell: string)

  // ---------------------------------------------------------------------------
  // Splitting
  // ---------------------------------------------------------------------------

  /** `str::split(sep)` */
  function Split(s: string, sep: char): (r: seq<string>)
    ensures |r| > 0
    ensures forall k :: 0 <= k < |r| ==> sep !in r[k]
  {
    if s == [] then [[]]
    else
      var rest := Split(s[1..], sep);
      if s[0] == sep then [[]] + rest else [[s[0]] + rest[0]] + rest[1..]
  }

  /** `str::lines`: a final line terminator does not open another line. */
  function Lines(s: string): seq<string> {
    var p := Split(s, '\n');
    if p[|p| - 1] == [] then p[..|p| - 1] else p
  }

  /** `trim_end_matches('\r')` */
  function TrimCr(s: string): (r: string)
    ensures r <= s
    ensures r != [] ==> r[|r| - 1] != '\r'
  {
    if s != [] && s[|s| - 1] == '\r' then TrimCr(s[..|s| - 1]) else s
  }

  lemma {:induction false} SplitSingle(s: string, sep: char)
    requires sep !in s
    ensures Split(s, sep) == [s]
  {
    if s != [] {
      SplitSingle(s[1..], sep);
      assert [s[0]] + s[1..] == s;
    }
  }

  lemma {:induction false} SplitCons(a: string, sep: char, b: string)
    requires sep !in a
    ensures Split(a + [sep] + b, sep) == [a] + Split(b, sep)
  {
    var s := a + [sep] + b;
    if a == [] {
      assert s[1..] == b;
    } else {
      assert s[1..] == a[1..] + [sep] + b;
      SplitCons(a[1..], sep, b);
      assert [a[0]] + a[1..] == a;
    }
  }

  lemma {:induction false} SplitPieces(s: string, sep: char, c: char)
    requires c !in s
    ensures forall k :: 0 <= k < |Split(s, sep)| ==> c !in Split(s, sep)[k]
  {
    if s != [] {
      SplitPieces(s[1..], sep, c);
    }
  }

  lemma {:induction false} SplitFirst(s: string, sep: char)
    ensures Split(s, sep)[0] <= s && (|Split(s, sep)| == 1 ==> Split(s, sep)[0] == s)
  {
    if s != [] {
      SplitFirst(s[1..], sep);
      assert s == [s[0]] + s[1..];
    }
  }

  ghost predicate IsSuffix(r: string, s: string) {
    |r| <= |s| && r == s[|s| - |r|..]
  }

  lemma SuffixMore(r: string, s: string)
    requires s != [] && IsSuffix(r, s[1..])
    ensures IsSuffix(r, s)
  {
  }

  /** The first piece is a prefix, the last one a suffix. */
  lemma {:induction false} SplitEnds(s: string, sep: char)
    ensures var r := Split(s, sep); r[0] <= s && IsSuffix(r[|r| - 1], s)
  {
    hide IsSuffix;
    SplitFirst(s, sep);
    if |Split(s, sep)| == 1 {
      assert IsSuffix(s, s) by { WholeSuffix(s); }
    } else {
      SplitEnds(s[1..], sep);
      var r, rest := Split(s, sep), Split(s[1..], sep);
      assert r[|r| - 1] == rest[|rest| - 1];
      SuffixMore(rest[|rest| - 1], s);
    }
  }

  lemma WholeSuffix(s: string)
    ensures IsSuffix(s, s)
  {
  }

  // ---------------------------------------------------------------------------
  // Numbers
  // ---------------------------------------------------------------------------

  function DigitChar(d: nat): char
    requires d < 10
  {
    ('0' as int + d) as char
  }

  predicate IsDigit(c: char) { '0' <= c <= '9' }

  /** `Display` for unsigned integers. */
  function Decimal(n: nat): (r: string)
    ensures r != [] && forall k :: 0 <= k < |r| ==> IsDigit(r[k])
  {
    if n < 10 then [DigitChar(n)] else Decimal(n / 10) + [DigitChar(n % 10)]
  }

  function Digit(c: char): nat
    requires IsDigit(c)
  {
    c as int - '0' as int
  }

  function Value(s: string): nat
    requires forall k :: 0 <= k < |s| ==> IsDigit(s[k])
  {
    if s == [] then 0 else Value(s[..|s| - 1]) * 10 + Digit(s[|s| - 1])
  }

  /** `str::parse::<u32>`: an optional plus sign and at least one digit, in range. */
  function ParseU32(s: string): Option<U32> {
    var digits := if |s| > 1 && s[0] == '+' then s[1..] else s;
    if digits == [] || exists k :: 0 <= k < |digits| && !IsDigit(digits[k]) then None
    else
      var v := Value(digits);
      if v > U32_MAX then None else Some(v)
  }

  lemma {:induction false} ValueOfDecimal(n: nat)
    ensures Value(Decimal(n)) == n
  {
    if n >= 10 {
      ValueOfDecimal(n / 10);
      assert Decimal(n)[..|Decimal(n)| - 1] == Decimal(n / 10);
    }
  }

  lemma ParseDecimal(n: U32)
    ensures ParseU32(Decimal(n)) == Some(n)
  {
    ValueOfDecimal(n);
  }

  // ---------------------------------------------------------------------------
  // The file format
  // ---------------------------------------------------------------------------

  function ParseLine(raw: string): Option<User> {
    var line := TrimCr(raw);
    if line == [] || line[0] == '#' then None
    else
      var parts := Split(line, ':');
      if |parts| != 7 then None
      else
        var uid := ParseU32(parts[2]);
        var gid := ParseU32(parts[3]);
        if uid.None? || gid.None? then None
        else Some(User(parts[0], parts[1], uid.value, gid.value, parts[4], parts[5], parts[6]))
  }

  function ParseAll(lines: seq<string>): seq<User> {
    if lines == [] then []
    else
      var u := ParseLine(lines[|lines| - 1]);
      ParseAll(lines[..|lines| - 1]) + (if u.Some? then [u.value] else [])
  }

  /** `parse_passwd` */
  function Parse(content: string): seq<User> { ParseAll(Lines(content)) }

  method ParsePasswd(content: string) returns (users: seq<User>)
    ensures users == Parse(content)
  {
    var lines := Lines(content);
    users := [];
    for k := 0 to |lines|
      invariant users == ParseAll(lines[..k])
    {
      assert lines[..k + 1][..k] == lines[..k];
      var line := TrimCr(lines[k]);
      if line == [] || line[0] == '#' { continue; }
      var parts := Split(line, ':');
      if |parts| != 7 { continue; }
      var uid := ParseU32(parts[2]);
      if uid.None? { continue; }
      var gid := ParseU32(parts[3]);
      if gid.None? { continue; }
      users := users + [User(parts[0], parts[1], uid.value, gid.value, parts[4], parts[5], parts[6])];
    }
    assert lines[..|lines|] == lines;
  }

  function Joined(fields: seq<string>): string
    requires fields != []
  {
    if |fields| == 1 then fields[0] else fields[0] + [':'] + Joined(fields[1..])
  }

  function Fields(u: User): (r: seq<string>)
    ensures |r| == 7
  {
    [u.name, u.hash, Decimal(u.uid), Decimal(u.gid), u.gecos, u.home, u.shell]
  }

  function Line(u: User): string { Joined(Fields(u)) }

  /** `serialize` */
  function Serialized(us: seq<User>): string {
    if us == [] then "" else Line(us[0]) + "\n" + Serialized(us[1..])
  }

  lemma {:induction false} SerializedSnoc(us: seq<User>, u: User)
    ensures Serialized(us + [u]) == Serialized(us) + (Line(u) + "\n")
  {
    if us == [] {
      assert (us + [u])[1..] == [];
    } else {
      assert (us + [u])[1..] == us[1..] + [u];
      SerializedSnoc(us[1..], u);
    }
  }

  method Serialize(us: seq<User>) returns (out: string)
    ensures out == Serialized(us)
  {
    hide Line;
    out := "";
    for k := 0 to |us|
      invariant out == Serialized(us[..k])
    {
      SerializedSnoc(us[..k], us[k]);
      assert us[..k + 1] == us[..k] + [us[k]];
      out := out + (Line(us[k]) + "\n");
    }
    assert us[..|us|] == us;
  }

  /** What the format can carry: no separators, no comment sign in front, no trailing carriage return. */
  predicate Plain(f: string) { ':' !in f && '\n' !in f }

  predicate Clean(u: User) {
    && Plain(u.name) && Plain(u.hash) && Plain(u.gecos) && Plain(u.home) && Plain(u.shell)
    && (u.name != [] ==> u.name[0] != '#')
    && (u.shell != [] ==> u.shell[|u.shell| - 1] != '\r')
  }

  lemma {:induction false} SplitJoined(fields: seq<string>)
    requires fields != [] && forall k :: 0 <= k < |fields| ==> ':' !in fields[k]
    ensures Split(Joined(fields), ':') == fields
  {
    if |fields| == 1 {
      SplitSingle(fields[0], ':');
    } else {
      SplitJoined(fields[1..]);
      SplitCons(fields[0], ':', Joined(fields[1..]));
    }
  }

  lemma {:induction false} JoinedChars(fields: seq<string>)
    requires fields != [] && forall k :: 0 <= k < |fields| ==> '\n' !in fields[k]
    ensures '\n' !in Joined(fields)
  {
    if |fields| > 1 {
      JoinedChars(fields[1..]);
    }
  }

  lemma {:induction false} JoinedEnd(fields: seq<string>)
    requires |fields| > 1
    ensures var j := Joined(fields); var last := fields[|fields| - 1];
            j != [] && j[|j| - 1] == if last == [] then ':' else last[|last| - 1]
  {
    if |fields| > 2 {
      JoinedEnd(fields[1..]);
    }
  }

  /** A serialised line starts with its name and survives the trimming of carriage returns. */
  lemma LineEnds(u: User)
    requires Clean(u)
    ensures '\n' !in Line(u) && Line(u) != [] && TrimCr(Line(u)) == Line(u)
    ensures Line(u)[0] == if u.name == [] then ':' else u.name[0]
  {
    hide Decimal;
    var f := Fields(u);
    assert forall k :: 0 <= k < 7 ==> Plain(f[k]) by { PlainDecimal(u.uid); PlainDecimal(u.gid); }
    JoinedChars(f);
    JoinedEnd(f);
  }

  lemma PlainDecimal(n: nat)
    ensures Plain(Decimal(n))
  {
  }

  lemma LineParses(u: User)
    requires Clean(u)
    ensures '\n' !in Line(u) && ParseLine(Line(u)) == Some(u)
  {
    hide Decimal, Split, ParseU32, TrimCr, Joined;
    LineEnds(u);
    PlainDecimal(u.uid);
    PlainDecimal(u.gid);
    SplitJoined(Fields(u));
    ParseDecimal(u.uid);
    ParseDecimal(u.gid);
  }

  lemma {:induction false} SerializedLines(us: seq<User>)
    requires forall u :: u in us ==> Clean(u)
    ensures Split(Serialized(us), '\n') == seq(|us|, k requires 0 <= k < |us| => Line(us[k])) + [[]]
  {
    hide Line, Clean;
    if us != [] {
      LineParses(us[0]);
      SerializedLines(us[1..]);
      SplitCons(Line(us[0]), '\n', Serialized(us[1..]));
    }
  }

  lemma {:induction false} ParseAllLines(us: seq<User>)
    requires forall u :: u in us ==> Clean(u)
    ensures ParseAll(seq(|us|, k requires 0 <= k < |us| => Line(us[k]))) == us
  {
    hide Line, Clean, ParseLine;
    var lines := seq(|us|, k requires 0 <= k < |us| => Line(us[k]));
    if us != [] {
      var init := us[..|us| - 1];
      assert lines[..|us| - 1] == seq(|init|, k requires 0 <= k < |init| => Line(init[k]));
      ParseAllLines(init);
      LineParses(us[|us| - 1]);
    }
  }

  lemma ParsedLineIsClean(raw: string)
    requires '\n' !in raw
    ensures ParseLine(raw).Some? ==> Clean(ParseLine(raw).value)
  {
    hide Split, ParseU32;
    var line := TrimCr(raw);
    SplitPieces(line, ':', '\n');
    SplitEnds(line, ':');
  }

  lemma {:induction false} ParsedIsClean(lines: seq<string>)
    requires forall k :: 0 <= k < |lines| ==> '\n' !in lines[k]
    ensures forall u :: u in ParseAll(lines) ==> Clean(u)
  {
    hide Clean, ParseLine;
    if lines != [] {
      ParsedIsClean(lines[..|lines| - 1]);
      ParsedLineIsClean(lines[|lines| - 1]);
    }
  }

  /** Reading back what was written gives the same list exactly when the format can carry it. */
  lemma RoundTrip(us: seq<User>)
    ensures Parse(Serialized(us)) == us <==> forall u :: u in us ==> Clean(u)
  {
    hide Clean, ParseLine, Line;
    ParsedIsClean(Lines(Serialized(us)));
    if forall u :: u in us ==> Clean(u) {
      SerializedLines(us);
      ParseAllLines(us);
      var lines := seq(|us|, k requires 0 <= k < |us| => Line(us[k]));
      assert Lines(Serialized(us)) == lines;
    }
  }

  /** A record with a colon in its comment does not come back. */
  lemma ColonLost()
    ensures var u := User("a", "", 1000, 1000, "b:c", "/", "/bin/sh"); Parse(Serialized([u])) != [u]
  {
    hide Parse, Serialized;
    var u := User("a", "", 1000, 1000, "b:c", "/", "/bin/sh");
    RoundTrip([u]);
    assert u in [u] && u.gecos[1] == ':';
  }

  // ---------------------------------------------------------------------------
  // The account operations
  // ---------------------------------------------------------------------------

  function HexDigit(d: bv8): char
    requires d < 16
  {
    "0123456789abcdef"[d as int]
  }

  /** `sha256_hex` */
  function Hex(bytes: seq<bv8>): string {
    if bytes == [] then "" else [HexDigit(bytes[0] >> 4), HexDigit(bytes[0] & 0x0f)] + Hex(bytes[1..])
  }

  function HashPassword(password: seq<bv8>): string { Hex(Sha256.Hash(password)) }

  predicate NameChar(c: char) {
    'a' <= c <= 'z' || 'A' <= c <= 'Z' || '0' <= c <= '9' || c == '_' || c == '-'
  }

  predicate NameValid(name: string) {
    name != [] && |name| <= 32 && forall k :: 0 <= k < |name| ==> NameChar(name[k])
  }

  predicate Taken(us: seq<User>, name: string) {
    exists k :: 0 <= k < |us| && us[k].name == name
  }

  predicate HasUid(us: seq<User>, uid: nat) {
    exists k :: 0 <= k < |us| && us[k].uid == uid
  }

  /** One more than the largest uid from 1000 up, or 1000. */
  function NextUid(us: seq<User>): (r: nat)
    ensures r >= 1000 && forall k :: 0 <= k < |us| ==> us[k].uid != r
    ensures forall k :: 0 <= k < |us| ==> us[k].uid < r || us[k].uid < 1000
    ensures r <= U32_MAX + 1
  {
    if us == [] then 1000
    else
      var before := NextUid(us[..|us| - 1]);
      var uid := us[|us| - 1].uid;
      if uid >= 1000 && uid >= before then uid + 1 else before
  }

  function NewUser(name: string, password: seq<bv8>, uid: U32): User {
    User(name, HashPassword(password), uid, uid, name, "/home/" + name, "/bin/sh")
  }

  function WithPassword(us: seq<User>, uid: nat, hash: string): seq<User> {
    if us == [] then []
    else if us[0].uid == uid then [us[0].(hash := hash)] + us[1..]
    else [us[0]] + WithPassword(us[1..], uid, hash)
  }

  function WithoutUid(us: seq<User>, uid: nat): seq<User> {
    if us == [] then []
    else (if us[0].uid != uid then [us[0]] else []) + WithoutUid(us[1..], uid)
  }

  datatype Step =
    | Create(name: string, password: seq<bv8>)
    | SetPassword(uid: nat, newPassword: seq<bv8>)
    | Delete(victim: nat)

  /** Whether the operation goes through; the uid after the largest one must still fit in 32 bits. */
  predicate Accepts(us: seq<User>, step: Step) {
    match step
    case Create(name, pw) => NameValid(name) && |pw| >= 4 && !Taken(us, name) && NextUid(us) <= U32_MAX
    case SetPassword(uid, pw) => |pw| >= 4 && HasUid(us, uid)
    case Delete(uid) => uid != 0 && HasUid(us, uid)
  }

  function ListStep(us: seq<User>, step: Step): seq<User> {
    if !Accepts(us, step) then us
    else match step
      case Create(name, pw) => us + [NewUser(name, pw, NextUid(us))]
      case SetPassword(uid, pw) => WithPassword(us, uid, HashPassword(pw))
      case Delete(uid) => WithoutUid(us, uid)
  }

  /** `load().unwrap_or_default()`: a missing or non-UTF-8 file counts as an empty list. */
  function Load(file: Option<string>): seq<User> {
    if file.None? then [] else Parse(file.value)
  }

  function FileStep(file: Option<string>, step: Step): Option<string> {
    if Accepts(Load(file), step) then Some(Serialized(ListStep(Load(file), step))) else file
  }

  datatype Outcome = Done | NameTaken | NameInvalid | PasswordTooShort | SaveFailed | UidOverflow

  class AccountFile {
    var content: Option<string>

    method LoadUsers() returns (us: seq<User>)
      ensures us == Load(content)
    {
      us := [];
      if content.Some? {
        us := ParsePasswd(content.value);
      }
    }

    /** `save`: the text is replaced before the disk answers. */
    method Save(us: seq<User>, persisted: bool) returns (r: Outcome)
      modifies this
      ensures content == Some(Serialized(us))
      ensures r == if persisted then Done else SaveFailed
    {
      var text := Serialize(us);
      content := Some(text);
      r := if persisted then Done else SaveFailed;
    }

    method CreateUser(name: string, password: seq<bv8>, persisted: bool) returns (r: Outcome)
      modifies this
      ensures content == FileStep(old(content), Create(name, password))
      ensures r in {Done, SaveFailed} <==> Accepts(old(Load(content)), Create(name, password))
      ensures r == NameInvalid <==> !NameValid(name)
      ensures r == PasswordTooShort <==> NameValid(name) && |password| < 4
      ensures r == NameTaken <==> NameValid(name) && |password| >= 4 && Taken(old(Load(content)), name)
      ensures r == SaveFailed ==> !persisted
    {
      if !NameValid(name) { return NameInvalid; }
      if |password| < 4 { return PasswordTooShort; }
      var us := LoadUsers();
      if Taken(us, name) { return NameTaken; }
      var uid := NextUid(us);
      if uid > U32_MAX { return UidOverflow; }
      r := Save(us + [NewUser(name, password, uid)], persisted);
    }

    method ChangePassword(uid: nat, password: seq<bv8>, persisted: bool) returns (r: Outcome)
      modifies this
      ensures content == FileStep(old(content), SetPassword(uid, password))
      ensures r in {Done, SaveFailed} <==> Accepts(old(Load(content)), SetPassword(uid, password))
    {
      if |password| < 4 { return PasswordTooShort; }
      var us := LoadUsers();
      if !HasUid(us, uid) { return NameInvalid; }
      r := Save(WithPassword(us, uid, HashPassword(password)), persisted);
    }

    method DeleteUser(uid: nat, persisted: bool) returns (r: Outcome)
      modifies this
      ensures content == FileStep(old(content), Delete(uid))
      ensures r in {Done, SaveFailed} <==> Accepts(old(Load(content)), Delete(uid))
    {
      if uid == 0 { return NameInvalid; }
      var us := LoadUsers();
      var rest := WithoutUid(us, uid);
      WithoutUidCount(us, uid);
      if |rest| == |us| { return NameInvalid; }
      r := Save(rest, persisted);
    }
  }

  lemma {:induction false} WithoutUidCount(us: seq<User>, uid: nat)
    ensures |WithoutUid(us, uid)| <= |us|
    ensures |WithoutUid(us, uid)| == |us| <==> !HasUid(us, uid)
  {
    if us != [] {
      WithoutUidCount(us[1..], uid);
      assert HasUid(us[1..], uid) ==> HasUid(us, uid) by {
        if HasUid(us[1..], uid) {
          var k :| 0 <= k < |us[1..]| && us[1..][k].uid == uid;
          assert us[k + 1].uid == uid;
        }
      }
      if HasUid(us, uid) && us[0].uid != uid {
        var k :| 0 <= k < |us| && us[k].uid == uid;
        assert us[1..][k - 1].uid == uid;
      }
    }
  }

  // ---------------------------------------------------------------------------
  // Runs of operations on the stored text
  // ---------------------------------------------------------------------------

  predicate AllClean(us: seq<User>) { forall k :: 0 <= k < |us| ==> Clean(us[k]) }

  lemma {:induction false} HexIsClean(bytes: seq<bv8>)
    ensures Plain(Hex(bytes))
  {
    if bytes != [] {
      HexIsClean(bytes[1..]);
    }
  }

  lemma NewUserIsClean(name: string, password: seq<bv8>, uid: U32)
    requires NameValid(name)
    ensures Clean(NewUser(name, password, uid))
  {
    hide Sha256.Hash, Hex;
    HexIsClean(Sha256.Hash(password));
    assert forall k :: 0 <= k < |name| ==> name[k] != ':' && name[k] != '\n' && name[k] != '#';
  }

  lemma LoadIsClean(file: Option<string>)
    ensures AllClean(Load(file))
  {
    if file.Some? {
      ParsedIsClean(Lines(file.value));
    }
  }

  ghost predicate FirstWith(us: seq<User>, uid: nat, k: nat)
    requires k < |us|
  {
    us[k].uid == uid && forall j :: 0 <= j < k ==> us[j].uid != uid
  }

  /** The first record with the uid gets the hash, and no other record changes. */
  lemma {:induction false} WithPasswordAt(us: seq<User>, uid: nat, hash: string)
    ensures |WithPassword(us, uid, hash)| == |us|
    ensures forall k :: 0 <= k < |us| ==>
              WithPassword(us, uid, hash)[k] == if FirstWith(us, uid, k) then us[k].(hash := hash) else us[k]
  {
    hide FirstWith;
    if us != [] {
      FirstAtZero(us, uid);
      if us[0].uid == uid {
        forall k | 0 < k < |us| ensures !FirstWith(us, uid, k) {
          FirstOnly(us, uid, k);
        }
      } else {
        var rest := us[1..];
        WithPasswordAt(rest, uid, hash);
        forall k | 0 < k < |us| ensures FirstWith(us, uid, k) <==> FirstWith(rest, uid, k - 1) {
          FirstInRest(us, uid, k);
        }
      }
    }
  }

  lemma FirstAtZero(us: seq<User>, uid: nat)
    requires us != []
    ensures FirstWith(us, uid, 0) <==> us[0].uid == uid
  {
  }

  lemma FirstOnly(us: seq<User>, uid: nat, k: nat)
    requires 0 < k < |us| && us[0].uid == uid
    ensures !FirstWith(us, uid, k)
  {
  }

  lemma FirstInRest(us: seq<User>, uid: nat, k: nat)
    requires 0 < k < |us| && us[0].uid != uid
    ensures FirstWith(us, uid, k) <==> FirstWith(us[1..], uid, k - 1)
  {
    var rest := us[1..];
    assert forall j :: 0 < j < k ==> us[j] == rest[j - 1];
    assert forall j :: 0 <= j < k - 1 ==> rest[j] == us[j + 1];
  }

  /** Every survivor keeps its record, and exactly the records with the uid go. */
  lemma {:induction false} WithoutUidKeeps(us: seq<User>, uid: nat)
    ensures var r := WithoutUid(us, uid);
            && (forall u :: u in r <==> u in us && u.uid != uid)
            && (Distinct(us) ==> Distinct(r))
  {
    if us != [] {
      WithoutUidKeeps(us[1..], uid);
      var rest := WithoutUid(us[1..], uid);
      if Distinct(us) && us[0].uid != uid {
        assert Distinct(us[1..]);
        var r := [us[0]] + rest;
        forall k | 0 < k < |r| ensures r[k].name != us[0].name && r[k].uid != us[0].uid {
          assert r[k] in us[1..];
        }
      }
    }
  }

  /** Names and uids are pairwise distinct. */
  ghost predicate Distinct(us: seq<User>) {
    forall i, j :: 0 <= i < j < |us| ==> us[i].name != us[j].name && us[i].uid != us[j].uid
  }

  /** The superuser records survive, up to their password. */
  ghost predicate RootKept(us: seq<User>, us': seq<User>) {
    forall u :: u in us && u.uid == 0 ==> exists v :: v in us' && v.(hash := u.hash) == u
  }

  lemma ListStepIsClean(us: seq<User>, step: Step)
    requires AllClean(us)
    ensures AllClean(ListStep(us, step))
  {
    hide Sha256.Hash, Hex, NewUser, WithPassword, WithoutUid, NextUid;
    if Accepts(us, step) {
      match step
      case Create(name, pw) =>
        NewUserIsClean(name, pw, NextUid(us));
      case SetPassword(uid, pw) =>
        HexIsClean(Sha256.Hash(pw));
        WithPasswordAt(us, uid, HashPassword(pw));
      case Delete(uid) =>
        WithoutUidKeeps(us, uid);
        forall k | 0 <= k < |WithoutUid(us, uid)| ensures Clean(WithoutUid(us, uid)[k]) {
          assert WithoutUid(us, uid)[k] in us;
        }
    }
  }

  /** The stored text always parses back to the list the operation computed. */
  lemma StepRefines(file: Option<string>, step: Step)
    ensures Load(FileStep(file, step)) == ListStep(Load(file), step)
  {
    hide Clean, Parse, Serialized, ListStep;
    if Accepts(Load(file), step) {
      LoadIsClean(file);
      ListStepIsClean(Load(file), step);
      RoundTrip(ListStep(Load(file), step));
    } else {
      Rejected(Load(file), step);
    }
  }

  lemma Rejected(us: seq<User>, step: Step)
    requires !Accepts(us, step)
    ensures ListStep(us, step) == us
  {
  }

  lemma PasswordKeeps(us: seq<User>, uid: nat, hash: string)
    requires Distinct(us)
    ensures Distinct(WithPassword(us, uid, hash)) && RootKept(us, WithPassword(us, uid, hash))
  {
    hide WithPassword, FirstWith;
    WithPasswordAt(us, uid, hash);
    var r := WithPassword(us, uid, hash);
    forall u | u in us && u.uid == 0 ensures exists v :: v in r && v.(hash := u.hash) == u {
      var k :| 0 <= k < |us| && us[k] == u;
      assert r[k] in r && r[k].(hash := u.hash) == u;
    }
  }

  lemma StepKeeps(us: seq<User>, step: Step)
    requires Distinct(us)
    ensures Distinct(ListStep(us, step)) && RootKept(us, ListStep(us, step))
  {
    hide HashPassword, WithPassword, WithoutUid;
    if Accepts(us, step) {
      match step
      case Create(name, pw) =>
      case SetPassword(uid, pw) => PasswordKeeps(us, uid, HashPassword(pw));
      case Delete(uid) => WithoutUidKeeps(us, uid);
    }
  }

  function FileAfter(file: Option<string>, steps: seq<Step>): Option<string> {
    if steps == [] then file else FileStep(FileAfter(file, steps[..|steps| - 1]), steps[|steps| - 1])
  }

  /**
   From a file whose names and uids are distinct, every run of create, set-password and delete
   leaves a file whose names and uids are distinct and which still has every superuser record.
   */
  lemma {:induction false} RunKeeps(file: Option<string>, steps: seq<Step>)
    requires Distinct(Load(file))
    ensures Distinct(Load(FileAfter(file, steps)))
    ensures RootKept(Load(file), Load(FileAfter(file, steps)))
  {
    hide Load, FileStep, ListStep;
    if steps != [] {
      var before := FileAfter(file, steps[..|steps| - 1]);
      var step := steps[|steps| - 1];
      RunKeeps(file, steps[..|steps| - 1]);
      StepRefines(before, step);
      StepKeeps(Load(before), step);
      RootKeptTrans(Load(file), Load(before), Load(FileStep(before, step)));
    }
  }

  lemma RootKeptTrans(a: seq<User>, b: seq<User>, c: seq<User>)
    requires RootKept(a, b) && RootKept(b, c)
    ensures RootKept(a, c)
  {
    forall u | u in a && u.uid == 0 ensures exists w :: w in c && w.(hash := u.hash) == u {
      var v :| v in b && v.(hash := u.hash) == u;
      var w :| w in c && w.(hash := v.hash) == v;
      assert w.(hash := u.hash) == u;
    }
  }
}
