/**
 The conversation allow-list: parsing it from the environment and from a runtime setting, checking
 a target, and narrowing the deployment's list by the runtime one.
 */
module ChatPolicy {
  import opened Wrappers

  /** White space and lower-casing as the Unicode tables define them, character by character. */
  datatype Unicode = Unicode(space: char -> bool, lower: char -> char)

  predicate Plain(c: char) {
    '0' <= c <= '9' || 'a' <= c <= 'z' || c in {'.', '-', '_', '*', ':', '@'}
  }

  /** All that is used of the tables. */
  ghost predicate Laws(u: Unicode) {
    && (forall c :: Plain(c) || 'A' <= c <= 'Z' ==> !u.space(c))
    && (forall c :: Plain(c) ==> u.lower(c) == c)
    && (forall c :: u.lower(c) == '@' ==> c == '@')
    && (forall c :: u.lower(u.lower(c)) == u.lower(c))
    && (forall c :: u.space(u.lower(c)) == u.space(c))
  }

  const DEFAULT_SERVER := "s.whatsapp.net"

  function TrimLeft(u: Unicode, s: string): string {
    if s != "" && u.space(s[0]) then TrimLeft(u, s[1..]) else s
  }

  function TrimRight(u: Unicode, s: string): string {
    if s != "" && u.space(s[|s| - 1]) then TrimRight(u, s[..|s| - 1]) else s
  }

  function Trim(u: Unicode, s: string): string {
    TrimRight(u, TrimLeft(u, s))
  }

  function Lower(u: Unicode, s: string): string {
    seq(|s|, i requires 0 <= i < |s| => u.lower(s[i]))
  }

  function CountAt(s: string): nat {
    multiset(s)['@']
  }

  /** What stands before the first such character, or everything. */
  function Before(s: string, c: char): string {
    if s == "" || s[0] == c then "" else s[..1] + Before(s[1..], c)
  }

  function LastAt(s: string): (i: int)
    ensures -1 <= i < |s|
  {
    if s == "" then -1 else if s[|s| - 1] == '@' then |s| - 1 else LastAt(s[..|s| - 1])
  }

  function ServerOf(s: string): string {
    s[LastAt(s) + 1..]
  }

  function UserOf(s: string): string {
    if LastAt(s) < 0 then "" else s[..LastAt(s)]
  }

  function Jid(user: string, server: string): string {
    user + "@" + server
  }

  /** A bare number becomes a phone JID, a device suffix goes, the server is lower-cased. */
  function Normalize(u: Unicode, raw: string): string {
    var s := Trim(u, raw);
    if s == "" || CountAt(s) > 1 then s
    else if CountAt(s) == 0 then Jid(s, DEFAULT_SERVER)
    else Jid(Before(UserOf(s), ':'), Lower(u, ServerOf(s)))
  }

  datatype Policy = Policy(restricted: bool, exact: set<string>, servers: set<string>)

  predicate Allows(u: Unicode, p: Policy, target: string) {
    CountAt(target) <= 1 && (p.restricted ==>
      var n := Normalize(u, target); n != "" && (n in p.exact || ServerOf(n) in p.servers))
  }

  // ----- parsing -----

  function NormalForms(u: Unicode, items: set<string>): set<string> {
    set raw | raw in items :: Normalize(u, raw)
  }

  /** Wildcards become servers and the rest exact entries. */
  function FromForms(forms: set<string>): Policy {
    var exact := set n | n in forms && n != "" && UserOf(n) != "*";
    var servers := set n | n in forms && n != "" && UserOf(n) == "*" :: ServerOf(n);
    Policy(exact != {} || servers != {}, exact, servers)
  }

  function ParsedTo(u: Unicode, items: set<string>): Policy {
    FromForms(NormalForms(u, items))
  }

  function Items(items: seq<string>): set<string> {
    set i | 0 <= i < |items| :: items[i]
  }

  /** `parseChatPolicy` over the comma-separated items; only a list of blanks is unrestricted. */
  method Parse(u: Unicode, items: seq<string>) returns (p: Policy)
    ensures p == ParsedTo(u, Items(items))
    ensures !p.restricted <==> forall i :: 0 <= i < |items| ==> Trim(u, items[i]) == ""
  {
    hide Normalize, UserOf, ServerOf, Trim;
    var exact: set<string>, servers: set<string> := {}, {};
    var i := 0;
    while i < |items|
      invariant 0 <= i <= |items|
      invariant Policy(exact != {} || servers != {}, exact, servers) == ParsedTo(u, Items(items[..i]))
      invariant exact == {} && servers == {} <==> forall k :: 0 <= k < i ==> Trim(u, items[k]) == ""
    {
      ParsedNext(u, items, i);
      NormalizeEmpty(u, items[i]);
      var n := Normalize(u, items[i]);
      if n != "" {
        if UserOf(n) == "*" {
          servers := servers + {ServerOf(n)};
        } else {
          exact := exact + {n};
        }
      }
      i := i + 1;
    }
    assert items[..i] == items;
    return Policy(exact != {} || servers != {}, exact, servers);
  }

  lemma NormalizeEmpty(u: Unicode, raw: string)
    ensures Normalize(u, raw) == "" <==> Trim(u, raw) == ""
  {
  }

  lemma ParsedNext(u: Unicode, items: seq<string>, i: nat)
    requires i < |items|
    ensures var before, after := ParsedTo(u, Items(items[..i])), ParsedTo(u, Items(items[..i + 1]));
            var n := Normalize(u, items[i]);
            && after.exact == before.exact + (if n != "" && UserOf(n) != "*" then {n} else {})
            && after.servers == before.servers + (if n != "" && UserOf(n) == "*" then {ServerOf(n)} else {})
  {
    hide Normalize, UserOf, ServerOf;
    ItemsNext(items, i);
    var before := Items(items[..i]);
    assert NormalForms(u, before + {items[i]}) == NormalForms(u, before) + {Normalize(u, items[i])};
  }

  lemma ItemsNext(items: seq<string>, i: nat)
    requires i < |items|
    ensures Items(items[..i + 1]) == Items(items[..i]) + {items[i]}
  {
    var before, after := items[..i], items[..i + 1];
    assert after == before + [items[i]];
    forall x | x in Items(before) ensures x in Items(after) {
      var k :| 0 <= k < |before| && x == before[k];
      assert after[k] == x;
    }
    assert after[i] == items[i];
  }

  // ----- intersection -----

  /** `intersectChatPolicies`, with its loops over the two lists. */
  method Intersect(u: Unicode, runtime: Policy, deploy: Policy) returns (out: Policy)
    ensures out == Intersection(u, runtime, deploy)
  {
    hide Allows;
    if !deploy.restricted {
      return runtime;
    }
    var exact := {};
    var todo := runtime.exact;
    while todo != {}
      invariant todo <= runtime.exact
      invariant exact == Allowed(u, deploy, runtime.exact - todo)
    {
      var e :| e in todo;
      if Allows(u, deploy, e) {
        exact := exact + {e};
      }
      todo := todo - {e};
    }
    todo := deploy.exact;
    while todo != {}
      invariant todo <= deploy.exact
      invariant exact == Allowed(u, deploy, runtime.exact) + Allowed(u, runtime, deploy.exact - todo)
    {
      var e :| e in todo;
      if Allows(u, runtime, e) {
        exact := exact + {e};
      }
      todo := todo - {e};
    }
    var servers := {};
    todo := runtime.servers;
    while todo != {}
      invariant todo <= runtime.servers
      invariant servers == (runtime.servers - todo) * deploy.servers
    {
      var s :| s in todo;
      if s in deploy.servers {
        servers := servers + {s};
      }
      todo := todo - {s};
    }
    return Policy(true, exact, servers);
  }

  function Allowed(u: Unicode, p: Policy, entries: set<string>): set<string> {
    set e | e in entries && Allows(u, p, e)
  }

  function Intersection(u: Unicode, runtime: Policy, deploy: Policy): Policy {
    if !deploy.restricted then runtime
    else
      Policy(true, Allowed(u, deploy, runtime.exact) + Allowed(u, runtime, deploy.exact),
             runtime.servers * deploy.servers)
  }

  /** An entry the checks read as it is written. */
  predicate Canonical(u: Unicode, entry: string) {
    entry != "" && CountAt(entry) <= 1 && Normalize(u, entry) == entry
  }

  /** Every entry is canonical or, having two `@`, matches nothing. */
  predicate Settled(u: Unicode, p: Policy) {
    forall e :: e in p.exact ==> CountAt(e) > 1 || Canonical(u, e)
  }

  /** What the settings resolver returns for a restricted runtime list allows exactly what both lists allow. */
  lemma IntersectionIsBoth(u: Unicode, runtime: Policy, deploy: Policy, target: string)
    requires Laws(u) && runtime.restricted && Settled(u, runtime) && Settled(u, deploy)
    ensures Allows(u, Intersection(u, runtime, deploy), target) <==>
            Allows(u, runtime, target) && Allows(u, deploy, target)
  {
    hide Normalize, CountAt, Laws, ServerOf;
    var n := Normalize(u, target);
    if CountAt(target) <= 1 && (n in runtime.exact || n in deploy.exact) {
      NormalKeepsCount(u, target);
      assert Canonical(u, n);
      AllowedAsNormalized(u, runtime, target);
      AllowedAsNormalized(u, deploy, target);
    }
  }

  /** A target and a canonical entry it normalizes to are allowed alike. */
  lemma AllowedAsNormalized(u: Unicode, p: Policy, target: string)
    requires CountAt(target) <= 1 && Canonical(u, Normalize(u, target))
    ensures Allows(u, p, target) <==> Allows(u, p, Normalize(u, target))
  {
  }

  // ----- normal forms -----

  /** `user@server` with nothing to trim. */
  predicate Neat(u: Unicode, user: string, server: string) {
    && '@' !in user && '@' !in server
    && (user == "" || !u.space(user[0])) && (server == "" || !u.space(server[|server| - 1]))
  }

  predicate Trimmed(u: Unicode, s: string) {
    s == "" || (!u.space(s[0]) && !u.space(s[|s| - 1]))
  }

  lemma CountEmpty()
    ensures CountAt("") == 0
  {
  }

  lemma CountWithout(a: string, c: char, b: string)
    requires c != '@'
    ensures CountAt(a + [c] + b) == CountAt(a) + CountAt(b)
  {
  }

  lemma {:induction false} TrimLeftFacts(u: Unicode, s: string)
    requires Laws(u)
    ensures var t := TrimLeft(u, s); CountAt(t) == CountAt(s) && (t != "" ==> !u.space(t[0]))
    ensures s == "" || !u.space(s[0]) ==> TrimLeft(u, s) == s
    decreases |s|
  {
    hide CountAt;
    if s != "" && u.space(s[0]) {
      TrimLeftFacts(u, s[1..]);
      assert Plain('@') && s == [] + [s[0]] + s[1..];
      CountWithout([], s[0], s[1..]);
      CountEmpty();
    }
  }

  lemma {:induction false} TrimRightFacts(u: Unicode, s: string)
    requires Laws(u)
    ensures var t := TrimRight(u, s);
            CountAt(t) == CountAt(s) && (t != "" ==> !u.space(t[|t| - 1]) && s != "" && t[0] == s[0])
    ensures s == "" || !u.space(s[|s| - 1]) ==> TrimRight(u, s) == s
    decreases |s|
  {
    hide CountAt;
    if s != "" && u.space(s[|s| - 1]) {
      TrimRightFacts(u, s[..|s| - 1]);
      assert Plain('@') && s == s[..|s| - 1] + [s[|s| - 1]] + [];
      CountWithout(s[..|s| - 1], s[|s| - 1], []);
      CountEmpty();
    }
  }

  lemma TrimFacts(u: Unicode, s: string)
    requires Laws(u)
    ensures Trimmed(u, Trim(u, s)) && CountAt(Trim(u, s)) == CountAt(s) && (Trimmed(u, s) ==> Trim(u, s) == s)
  {
    hide Laws, CountAt;
    TrimLeftFacts(u, s);
    TrimRightFacts(u, TrimLeft(u, s));
  }

  lemma {:induction false} BeforeFacts(s: string, c: char)
    ensures var b := Before(s, c); c !in b && Before(b, c) == b && b <= s && (b == s <==> c !in s)
    decreases |s|
  {
    if s != "" {
      assert s == s[..1] + s[1..];
      if s[0] != c {
        BeforeFacts(s[1..], c);
        var rest := Before(s[1..], c);
        assert (s[..1] + rest)[1..] == rest;
      }
    }
  }

  lemma {:induction false} LastAtFacts(s: string)
    ensures LastAt(s) >= 0 ==> s[LastAt(s)] == '@'
    ensures forall k :: LastAt(s) < k < |s| ==> s[k] != '@'
    decreases |s|
  {
    if s != "" && s[|s| - 1] != '@' {
      LastAtFacts(s[..|s| - 1]);
    }
  }

  /** A text with one `@` is a user and a server. */
  lemma Parts(s: string)
    requires CountAt(s) == 1
    ensures s == Jid(UserOf(s), ServerOf(s)) && '@' !in UserOf(s) && '@' !in ServerOf(s)
  {
    var i := LastAt(s);
    LastAtFacts(s);
    assert i >= 0 by { assert '@' in multiset(s); }
    assert s == s[..i] + "@" + s[i + 1..];
    assert multiset(s) == multiset(s[..i]) + multiset{'@'} + multiset(s[i + 1..]);
  }

  lemma JidParts(user: string, server: string)
    requires '@' !in user && '@' !in server
    ensures CountAt(Jid(user, server)) == 1 && UserOf(Jid(user, server)) == user
    ensures ServerOf(Jid(user, server)) == server
  {
    var s := Jid(user, server);
    assert multiset(user)['@'] == 0 && multiset(server)['@'] == 0;
    LastAtFacts(s);
    assert s[|user|] == '@';
    assert forall k :: |user| < k < |s| ==> s[k] == server[k - |user| - 1];
  }

  lemma JidIsInjective(user: string, server: string, user': string, server': string)
    requires '@' !in user && '@' !in server && '@' !in user' && '@' !in server'
    requires Jid(user, server) == Jid(user', server')
    ensures user == user' && server == server'
  {
    hide UserOf, ServerOf;
    JidParts(user, server);
    JidParts(user', server');
  }

  lemma NormalizeJid(u: Unicode, user: string, server: string)
    requires Laws(u) && Neat(u, user, server)
    ensures Normalize(u, Jid(user, server)) == Jid(Before(user, ':'), Lower(u, server))
    ensures Neat(u, Before(user, ':'), Lower(u, server))
  {
    var s := Jid(user, server);
    JidParts(user, server);
    TrimFacts(u, s);
    BeforeFacts(user, ':');
    assert Trimmed(u, s);
  }

  lemma DefaultServerFacts(u: Unicode)
    requires Laws(u)
    ensures '@' !in DEFAULT_SERVER && Lower(u, DEFAULT_SERVER) == DEFAULT_SERVER
    ensures !u.space(DEFAULT_SERVER[|DEFAULT_SERVER| - 1])
  {
    assert forall c :: c in DEFAULT_SERVER ==> Plain(c);
  }

  /** A bare text with a colon, the one kind of item that does not stay as it was normalized. */
  predicate BareDevice(u: Unicode, raw: string) {
    var s := Trim(u, raw); CountAt(s) == 0 && ':' in s
  }

  /** The user and server an item with at most one `@` is normalized to. */
  lemma NormalParts(u: Unicode, raw: string) returns (user: string, server: string)
    requires Laws(u) && Trim(u, raw) != "" && CountAt(raw) <= 1
    ensures Neat(u, user, server) && Lower(u, server) == server && Normalize(u, raw) == Jid(user, server)
    ensures ':' in user <==> BareDevice(u, raw)
  {
    var s := Trim(u, raw);
    TrimFacts(u, raw);
    DefaultServerFacts(u);
    if CountAt(s) == 0 {
      user, server := s, DEFAULT_SERVER;
      assert '@' !in multiset(s);
    } else {
      Parts(s);
      NormalizeJid(u, UserOf(s), ServerOf(s));
      BeforeFacts(UserOf(s), ':');
      user, server := Before(UserOf(s), ':'), Lower(u, ServerOf(s));
    }
  }

  lemma NormalKeepsCount(u: Unicode, raw: string)
    requires Laws(u) && CountAt(raw) <= 1
    ensures CountAt(Normalize(u, raw)) <= 1
  {
    if Trim(u, raw) != "" {
      var user, server := NormalParts(u, raw);
      JidParts(user, server);
    }
  }

  /** An item is normalized once and for all if and only if it is not a bare text with a colon. */
  lemma NormalTwiceIff(u: Unicode, raw: string)
    requires Laws(u)
    ensures var n := Normalize(u, raw);
            var m := Normalize(u, n);
            && (m == n <==> !BareDevice(u, raw)) && (m == "" <==> n == "")
            && (m == "" || CountAt(m) > 1 || Canonical(u, m))
  {
    hide Laws, Lower, Before, Trim;
    TrimFacts(u, raw);
    TrimFacts(u, Trim(u, raw));
    if Trim(u, raw) != "" && CountAt(raw) <= 1 {
      var user, server := NormalParts(u, raw);
      NormalizeJid(u, user, server);
      var bare := Before(user, ':');
      BeforeFacts(user, ':');
      NormalizeJid(u, bare, server);
      JidParts(bare, server);
      assert Normalize(u, Jid(user, server)) == Jid(bare, server);
      if Jid(bare, server) == Jid(user, server) {
        JidIsInjective(bare, server, user, server);
      }
    }
  }

  // ----- the effective list -----

  /** `entries`: a list as the settings table keeps it. */
  function Entries(p: Policy): set<string> {
    p.exact + set s | s in p.servers :: Jid("*", s)
  }

  /** Both lists are parsed, kept as entries and parsed again. */
  function Reparsed(u: Unicode, items: set<string>): Policy {
    ParsedTo(u, Entries(ParsedTo(u, items)))
  }

  lemma EntriesAreForms(forms: set<string>)
    ensures Entries(FromForms(forms)) == forms - {""}
  {
    hide LastAt;
    var p := FromForms(forms);
    forall n | n in forms && n != "" && UserOf(n) == "*"
      ensures ServerOf(n) in p.servers && n == Jid("*", ServerOf(n))
    {
      LastAtFacts(n);
      assert n == n[..LastAt(n)] + "@" + n[LastAt(n) + 1..];
    }
    forall s | s in p.servers ensures Jid("*", s) in forms {
      var n :| n in forms && n != "" && UserOf(n) == "*" && ServerOf(n) == s;
    }
  }

  lemma ReparsedIsSettled(u: Unicode, items: set<string>)
    requires Laws(u)
    ensures Settled(u, Reparsed(u, items))
  {
    hide Normalize, CountAt, UserOf, ServerOf, Laws, Canonical;
    EntriesAreForms(NormalForms(u, items));
    forall e | e in Reparsed(u, items).exact ensures CountAt(e) > 1 || Canonical(u, e) {
      var n :| n in NormalForms(u, items) && e == Normalize(u, n);
      var raw :| raw in items && n == Normalize(u, raw);
      NormalTwiceIff(u, raw);
    }
  }

  lemma FormsStay(u: Unicode, items: set<string>)
    requires Laws(u) && forall raw :: raw in items ==> !BareDevice(u, raw)
    ensures var forms := NormalForms(u, items) - {""}; NormalForms(u, forms) == forms
  {
    hide Normalize, Laws, BareDevice, CountAt;
    var forms := NormalForms(u, items) - {""};
    forall n | n in forms ensures Normalize(u, n) == n {
      var raw :| raw in items && n == Normalize(u, raw);
      NormalTwiceIff(u, raw);
    }
  }

  lemma BareForm(u: Unicode, raw: string)
    requires Laws(u) && BareDevice(u, raw)
    ensures var s := Trim(u, raw);
            Normalize(u, raw) == Jid(s, DEFAULT_SERVER) && Neat(u, s, DEFAULT_SERVER) && ':' in s
  {
    hide Laws, Trim;
    TrimFacts(u, raw);
    DefaultServerFacts(u);
    assert '@' !in multiset(Trim(u, raw));
  }

  /** Such a text is first an exact entry that is not canonical, then one without the colon. */
  lemma BareDeviceMoves(u: Unicode, raw: string)
    requires Laws(u) && BareDevice(u, raw)
    ensures var n := Normalize(u, raw); n != "" && UserOf(n) != "*" && CountAt(n) == 1 && !Canonical(u, n)
    ensures var bare := Jid(Before(Trim(u, raw), ':'), DEFAULT_SERVER);
            Normalize(u, Normalize(u, raw)) == bare && Canonical(u, bare)
  {
    hide Normalize, CountAt, UserOf, ServerOf, Before, Laws, Lower, Trim;
    var s := Trim(u, raw);
    BareForm(u, raw);
    DefaultServerFacts(u);
    JidParts(s, DEFAULT_SERVER);
    NormalizeJid(u, s, DEFAULT_SERVER);
    NormalTwiceIff(u, raw);
    JidParts(Before(s, ':'), DEFAULT_SERVER);
    assert ':' !in "*";
  }

  /** The second parse changes nothing if and only if no item is a bare text with a colon. */
  lemma ReparseKeepsListIff(u: Unicode, items: set<string>)
    requires Laws(u)
    ensures Reparsed(u, items) == ParsedTo(u, items) <==> forall raw :: raw in items ==> !BareDevice(u, raw)
  {
    hide Normalize, CountAt, UserOf, ServerOf, Laws, Canonical, BareDevice, FromForms, NormalForms;
    var forms := NormalForms(u, items);
    EntriesAreForms(forms);
    if forall raw :: raw in items ==> !BareDevice(u, raw) {
      FormsStay(u, items);
      EmptyFormIsIgnored(forms);
    } else {
      var raw :| raw in items && BareDevice(u, raw);
      BareDeviceMoves(u, raw);
      ReparsedIsSettled(u, items);
      ExactForm(u, items, raw);
    }
  }

  lemma EmptyFormIsIgnored(forms: set<string>)
    ensures FromForms(forms) == FromForms(forms - {""})
  {
    hide UserOf, ServerOf;
  }

  lemma ExactForm(u: Unicode, items: set<string>, raw: string)
    requires raw in items && Normalize(u, raw) != "" && UserOf(Normalize(u, raw)) != "*"
    ensures Normalize(u, raw) in ParsedTo(u, items).exact
  {
    hide Normalize, UserOf, ServerOf;
  }

  /** A text the pattern admits: digits, or a user or `*` and a server around one `@`. */
  predicate IsEntry(s: string) {
    || (s != "" && forall c :: c in s ==> '0' <= c <= '9')
    || (&& CountAt(s) == 1 && ServerOf(s) != "" && (forall c :: c in ServerOf(s) ==> Word(c) || c == '.')
        && (UserOf(s) == "*" || (UserOf(s) != "" && forall c :: c in UserOf(s) ==> Word(c) || c in {'_', ':'})))
  }

  predicate Word(c: char) {
    '0' <= c <= '9' || 'A' <= c <= 'Z' || 'a' <= c <= 'z' || c == '-'
  }

  predicate IsList(u: Unicode, items: seq<string>) {
    items != [] && forall i :: 0 <= i < |items| ==> IsEntry(Trim(u, items[i]))
  }

  /** The runtime list alone; one that does not parse permits nothing. */
  function RuntimeList(u: Unicode, items: seq<string>): Policy {
    Reparsed(u, if IsList(u, items) then Items(items) else {}).(restricted := true)
  }

  /** The policy in force, without or with a runtime list. */
  function Effective(u: Unicode, env: seq<string>, runtime: Option<seq<string>>): Policy {
    match runtime
    case None => Reparsed(u, Items(env))
    case Some(items) => Intersection(u, RuntimeList(u, items), Reparsed(u, Items(env)))
  }

  /** A runtime list allows, of what is allowed without it, exactly what it allows itself. */
  lemma RuntimeNarrows(u: Unicode, env: seq<string>, items: seq<string>, target: string)
    requires Laws(u)
    ensures Allows(u, Effective(u, env, Some(items)), target) <==>
            Allows(u, Effective(u, env, None), target) && Allows(u, RuntimeList(u, items), target)
  {
    hide Normalize, CountAt, Laws, Reparsed, Intersection, IsList, Canonical;
    ReparsedIsSettled(u, Items(env));
    ReparsedIsSettled(u, if IsList(u, items) then Items(items) else {});
    IntersectionIsBoth(u, RuntimeList(u, items), Reparsed(u, Items(env)), target);
  }

  /** Each entry of a runtime list matches itself if and only if the whole list passes the pattern. */
  lemma EntryMatchesIff(u: Unicode, items: seq<string>, i: nat)
    requires Laws(u) && i < |items|
    ensures Allows(u, RuntimeList(u, items), items[i]) <==> IsList(u, items)
  {
    hide Normalize, CountAt, UserOf, ServerOf, Laws, IsEntry, Trim;
    if IsList(u, items) {
      var raw := items[i];
      var n := Normalize(u, raw);
      EntryIsSettled(u, raw);
      var forms := NormalForms(u, Items(items));
      assert n in forms;
      EntriesAreForms(forms);
      assert Normalize(u, n) in NormalForms(u, forms - {""});
    } else {
      assert NormalForms(u, {}) == {};
      EntriesAreForms({});
    }
  }

  lemma EntryIsSettled(u: Unicode, raw: string)
    requires Laws(u) && IsEntry(Trim(u, raw))
    ensures var n := Normalize(u, raw); n != "" && Normalize(u, n) == n && CountAt(raw) <= 1
  {
    hide Laws, Before, Lower;
    var s := Trim(u, raw);
    TrimFacts(u, raw);
    NormalTwiceIff(u, raw);
    assert CountAt(s) != 1 ==> '@' !in s && '@' !in multiset(s);
  }

  // ----- what the deployment's own list promises -----

  /** What such a text allows once the list is parsed again. */
  function Undeviced(u: Unicode, raw: string): string {
    Jid(Before(Trim(u, raw), ':'), DEFAULT_SERVER)
  }

  /** The form that lets a normalized target in: the target itself, or a wildcard for its server. */
  predicate Admits(form: string, n: string) {
    form != "" && if UserOf(form) == "*" then ServerOf(form) == ServerOf(n) else form == n
  }

  lemma AllowedByForm(u: Unicode, forms: set<string>, target: string)
    ensures var n := Normalize(u, target);
            Allows(u, FromForms(forms), target) <==>
            && CountAt(target) <= 1
            && (FromForms(forms).restricted ==> n != "" && exists form :: form in forms && Admits(form, n))
  {
    hide Normalize, CountAt, UserOf, ServerOf;
    var p, n := FromForms(forms), Normalize(u, target);
    if form :| form in forms && Admits(form, n) {
      assert if UserOf(form) == "*" then ServerOf(n) in p.servers else n in p.exact;
    }
    if n in p.exact {
      assert Admits(n, n);
    }
    if ServerOf(n) in p.servers {
      var form :| form in forms && form != "" && UserOf(form) == "*" && ServerOf(form) == ServerOf(n);
      assert Admits(form, n);
    }
  }

  lemma RestrictedAlike(u: Unicode, forms: set<string>)
    requires Laws(u) && forall n :: n in forms ==> exists raw :: n == Normalize(u, raw)
    ensures FromForms(NormalForms(u, forms - {""})).restricted == FromForms(forms).restricted
  {
    hide Normalize, UserOf, ServerOf, Laws, CountAt;
    RestrictedBySome(forms);
    RestrictedBySome(NormalForms(u, forms - {""}));
    forall n | n in forms && n != "" ensures Normalize(u, n) in NormalForms(u, forms - {""}) && Normalize(u, n) != "" {
      var raw :| n == Normalize(u, raw);
      NormalTwiceIff(u, raw);
    }
  }

  lemma RestrictedBySome(forms: set<string>)
    ensures FromForms(forms).restricted <==> exists n :: n in forms && n != ""
  {
    hide UserOf, ServerOf;
    var p := FromForms(forms);
    if n :| n in forms && n != "" {
      assert n in p.exact || ServerOf(n) in p.servers;
    }
  }

  /** The list in force always allows a bare text with a colon by what stands before the colon. */
  lemma UndevicedIsAllowed(u: Unicode, env: seq<string>, raw: string)
    requires Laws(u) && raw in Items(env) && BareDevice(u, raw)
    ensures Allows(u, Effective(u, env, None), Undeviced(u, raw))
  {
    hide Normalize, CountAt, UserOf, ServerOf, Laws, Trim, Before, FromForms, BareDevice;
    var forms, n, bare := NormalForms(u, Items(env)), Normalize(u, raw), Undeviced(u, raw);
    BareDeviceMoves(u, raw);
    EntriesAreForms(forms);
    assert n in forms - {""} && bare in NormalForms(u, forms - {""});
    assert Admits(bare, bare);
    AllowedByForm(u, NormalForms(u, forms - {""}), bare);
  }

  /** Any other target it allows was allowed by the list parsed once. */
  lemma AllowedOnce(u: Unicode, env: seq<string>, target: string)
    requires Laws(u) && Allows(u, Effective(u, env, None), target)
    requires forall raw :: raw in Items(env) && BareDevice(u, raw) ==>
               Allows(u, ParsedTo(u, Items(env)), Undeviced(u, raw))
    ensures Allows(u, ParsedTo(u, Items(env)), target)
  {
    hide Normalize, CountAt, UserOf, ServerOf, Laws, Trim, Before, FromForms, BareDevice, Undeviced;
    var forms, n := NormalForms(u, Items(env)), Normalize(u, target);
    var again := NormalForms(u, forms - {""});
    EntriesAreForms(forms);
    RestrictedAlike(u, forms);
    AllowedByForm(u, again, target);
    AllowedByForm(u, forms, target);
    if FromForms(forms).restricted {
      var form :| form in again && Admits(form, n);
      var once :| once in forms - {""} && form == Normalize(u, once);
      var raw :| raw in Items(env) && once == Normalize(u, raw);
      NormalTwiceIff(u, raw);
      if BareDevice(u, raw) {
        UndevicedIsNormal(u, raw);
        AllowedByForm(u, forms, form);
        var g :| g in forms && Admits(g, form);
        assert Admits(g, n);
      }
    }
  }

  lemma UndevicedIsNormal(u: Unicode, raw: string)
    requires Laws(u) && BareDevice(u, raw)
    ensures Normalize(u, Normalize(u, raw)) == Undeviced(u, raw) && Canonical(u, Undeviced(u, raw))
  {
    BareDeviceMoves(u, raw);
  }

  /**
   Whatever runtime list is set, no chat outside the deployment's own list is ever allowed, if and only
   if that list itself allows what each of its bare texts with a colon has before the colon.
   */
  lemma EffectiveWithinDeploymentIff(u: Unicode, env: seq<string>)
    requires Laws(u)
    ensures (forall runtime, target | Allows(u, Effective(u, env, runtime), target) ::
               Allows(u, ParsedTo(u, Items(env)), target)) <==>
            (forall raw | raw in Items(env) && BareDevice(u, raw) ::
               Allows(u, ParsedTo(u, Items(env)), Undeviced(u, raw)))
  {
    hide Normalize, CountAt, Laws, Reparsed, Intersection, ParsedTo, BareDevice, RuntimeList, Undeviced, Allows;
    hide Effective;
    if forall raw | raw in Items(env) && BareDevice(u, raw) :: Allows(u, ParsedTo(u, Items(env)), Undeviced(u, raw)) {
      forall runtime: Option<seq<string>>, target | Allows(u, Effective(u, env, runtime), target)
        ensures Allows(u, ParsedTo(u, Items(env)), target)
      {
        if runtime.Some? {
          RuntimeNarrows(u, env, runtime.value, target);
        }
        AllowedOnce(u, env, target);
      }
    }
    forall raw | raw in Items(env) && BareDevice(u, raw) ensures Allows(u, Effective(u, env, None), Undeviced(u, raw)) {
      UndevicedIsAllowed(u, env, raw);
    }
  }

  /** A list of one such text is where it fails. */
  lemma EffectiveBeyondDeployment(u: Unicode, raw: string)
    requires Laws(u) && BareDevice(u, raw)
    ensures Allows(u, Effective(u, [raw], None), Undeviced(u, raw))
    ensures !Allows(u, ParsedTo(u, Items([raw])), Undeviced(u, raw))
  {
    hide Normalize, CountAt, UserOf, ServerOf, Laws, Trim, Before;
    BareDeviceMoves(u, raw);
    assert Items([raw]) == {raw} by { assert [raw][0] == raw; }
    UndevicedIsAllowed(u, [raw], raw);
    assert NormalForms(u, {raw}) == {Normalize(u, raw)};
  }
}
