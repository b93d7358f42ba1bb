/** Ledger idempotency keys `<purpose>:<scope>:<subject>` (app/domain/idempotency.py). */
module Keys {
  import opened Prelude

  datatype KeyError = EmptyComponent | ContainsSeparator | WrongPrefix | Malformed

  const SEPARATOR := ':'

  // ---------------------------------------------------------------- building a key

  function CheckComponent(value: string, mayBeEmpty: bool): Option<KeyError> {
    if value == "" then (if mayBeEmpty then None else Some(EmptyComponent))
    else if SEPARATOR in value then Some(ContainsSeparator)
    else None
  }

  /** The text before the first underscore; `None` when there is none. */
  function IdPrefix(value: string): Option<string> {
    if value == "" then None
    else if value[0] == '_' then Some("")
    else match IdPrefix(value[1..])
         case None => None
         case Some(p) => Some([value[0]] + p)
  }

  function LedgerKey(purpose: string, scope: string, subject: string): Result<string, KeyError> {
    if CheckComponent(purpose, false).Some? then Err(CheckComponent(purpose, false).value)
    else if CheckComponent(scope, false).Some? then Err(CheckComponent(scope, false).value)
    else if CheckComponent(subject, purpose == "fee").Some? then Err(CheckComponent(subject, purpose == "fee").value)
    else if purpose == "settle" && (IdPrefix(scope) != Some("sb") || IdPrefix(subject) != Some("ri"))
    then Err(WrongPrefix)
    else Ok(purpose + ":" + scope + ":" + subject)
  }

  // ---------------------------------------------------------------- parsing one

  /** `str.split(":")`. */
  function Split(s: string): (parts: seq<string>)
    ensures |parts| >= 1
  {
    if s == "" then [""]
    else
      var rest := Split(s[1..]);
      if s[0] == SEPARATOR then [""] + rest else [[s[0]] + rest[0]] + rest[1..]
  }

  function ParseKey(key: string): Result<(string, string, string), KeyError> {
    var parts := Split(key);
    if |parts| != 3 || parts[0] == "" || parts[1] == "" then Err(Malformed)
    else Ok((parts[0], parts[1], parts[2]))
  }

  lemma {:induction false} SplitPlain(s: string)
    requires SEPARATOR !in s
    ensures Split(s) == [s]
  {
    if s != "" {
      assert SEPARATOR !in s[1..];
      SplitPlain(s[1..]);
      assert [s[0]] + s[1..] == s;
    }
  }

  lemma {:induction false} SplitAtSeparator(a: string, b: string)
    requires SEPARATOR !in a
    ensures Split(a + ":" + b) == [a] + Split(b)
  {
    var s := a + ":" + b;
    if a == "" {
      assert s[1..] == b;
    } else {
      SplitAtSeparator(a[1..], b);
      assert s[1..] == a[1..] + ":" + b;
      assert [a[0]] + a[1..] == a;
    }
  }

  function Joined(parts: seq<string>): string
    requires |parts| >= 1
  {
    if |parts| == 1 then parts[0] else parts[0] + ":" + Joined(parts[1..])
  }

  /** Splitting loses nothing: the pieces joined again are the string. */
  lemma {:induction false} SplitJoins(s: string)
    ensures Joined(Split(s)) == s
    ensures forall i :: 0 <= i < |Split(s)| ==> SEPARATOR !in Split(s)[i]
  {
    if s != "" {
      SplitJoins(s[1..]);
      var rest := Split(s[1..]);
      if s[0] == SEPARATOR {
        assert ([""] + rest)[1..] == rest;
        assert "" + ":" + s[1..] == s;
      } else {
        var parts := [[s[0]] + rest[0]] + rest[1..];
        assert parts[1..] == rest[1..];
        assert Joined(parts) == [s[0]] + Joined(rest);
      }
    }
  }

  // ---------------------------------------------------------------- the two are inverse

  lemma AcceptedComponents(purpose: string, scope: string, subject: string)
    requires LedgerKey(purpose, scope, subject).Ok?
    ensures purpose != "" && scope != "" && SEPARATOR !in purpose && SEPARATOR !in scope && SEPARATOR !in subject
  {
  }

  /** Parsing an accepted key gives its components back. */
  lemma ParseInvertsKey(purpose: string, scope: string, subject: string)
    requires LedgerKey(purpose, scope, subject).Ok?
    ensures ParseKey(LedgerKey(purpose, scope, subject).value) == Ok((purpose, scope, subject))
  {
    AcceptedComponents(purpose, scope, subject);
    var key := LedgerKey(purpose, scope, subject).value;
    assert key == purpose + ":" + (scope + ":" + subject);
    SplitAtSeparator(purpose, scope + ":" + subject);
    SplitAtSeparator(scope, subject);
    SplitPlain(subject);
  }

  /** Two business facts never share a key. */
  lemma KeyInjective(p1: string, s1: string, j1: string, p2: string, s2: string, j2: string)
    requires LedgerKey(p1, s1, j1).Ok? && LedgerKey(p2, s2, j2).Ok?
    requires LedgerKey(p1, s1, j1) == LedgerKey(p2, s2, j2)
    ensures p1 == p2 && s1 == s2 && j1 == j2
  {
    ParseInvertsKey(p1, s1, j1);
    ParseInvertsKey(p2, s2, j2);
  }

  /** The components `LedgerKey` insists on beyond what `ParseKey` checks. */
  predicate Buildable(parts: (string, string, string)) {
    && (parts.2 != "" || parts.0 == "fee")
    && (parts.0 == "settle" ==> IdPrefix(parts.1) == Some("sb") && IdPrefix(parts.2) == Some("ri"))
  }

  /**
   Rebuilding a parsed key gives the same string exactly when its subject is present (or it is a
   fee key) and a settle key has its id prefixes; `ParseKey` alone accepts more than that.
   */
  lemma KeyInvertsParse(key: string)
    requires ParseKey(key).Ok?
    ensures var p := ParseKey(key).value;
            LedgerKey(p.0, p.1, p.2) == Ok(key) <==> Buildable(p)
  {
    var parts, p := Split(key), ParseKey(key).value;
    SplitJoins(key);
    assert parts[1..][1..] == [parts[2]];
    assert Joined(parts[1..][1..]) == parts[2];
    assert Joined(parts[1..]) == parts[1] + ":" + parts[2];
    assert p.0 + ":" + p.1 + ":" + p.2 == key;
  }

  /** The prefix is what stands before the first underscore. */
  lemma {:induction false} IdPrefixExactly(value: string, prefix: string)
    ensures IdPrefix(value) == Some(prefix) <==>
              |prefix| < |value| && value[..|prefix|] == prefix && value[|prefix|] == '_' && '_' !in prefix
  {
    if value == "" || value[0] == '_' {
      assert prefix != "" && value != "" && |prefix| <= |value| && value[..|prefix|] == prefix ==>
               prefix[0] == value[0];
    } else if prefix != "" {
      IdPrefixExactly(value[1..], prefix[1..]);
      assert prefix == [prefix[0]] + prefix[1..];
      if |prefix| < |value| {
        assert value[1..][..|prefix| - 1] == value[..|prefix|][1..];
        assert value[..|prefix|] == [value[0]] + value[..|prefix|][1..];
      }
      assert '_' in prefix <==> prefix[0] == '_' || '_' in prefix[1..];
    }
  }

  /** `partition("_")`: a prefix followed by its underscore. */
  predicate HasPrefix(value: string, prefix: string) {
    |prefix| < |value| && value[..|prefix|] == prefix && value[|prefix|] == '_'
  }

  /** A key is built exactly from separator-free components, none empty but a fee's subject, settle's with prefixes. */
  lemma BuiltExactly(purpose: string, scope: string, subject: string)
    ensures LedgerKey(purpose, scope, subject).Ok? <==>
              && purpose != "" && scope != "" && (subject != "" || purpose == "fee")
              && SEPARATOR !in purpose && SEPARATOR !in scope && SEPARATOR !in subject
              && (purpose == "settle" ==> HasPrefix(scope, "sb") && HasPrefix(subject, "ri"))
    ensures LedgerKey(purpose, scope, subject).Ok? ==>
              LedgerKey(purpose, scope, subject).value == purpose + ":" + scope + ":" + subject
    ensures LedgerKey(purpose, scope, subject) == Err(EmptyComponent) <==>
              || purpose == ""
              || (SEPARATOR !in purpose && scope == "")
              || (SEPARATOR !in purpose + scope && subject == "" && purpose != "fee")
    ensures LedgerKey(purpose, scope, subject) == Err(WrongPrefix) <==>
              && purpose == "settle" && scope != "" && subject != "" && SEPARATOR !in scope + subject
              && !(HasPrefix(scope, "sb") && HasPrefix(subject, "ri"))
    ensures LedgerKey(purpose, scope, subject) != Err(Malformed)
  {
    IdPrefixExactly(scope, "sb");
    IdPrefixExactly(subject, "ri");
  }

  /** A string parses exactly when it is three separator-free parts, of which only the last may be empty. */
  lemma ParsesExactly(key: string, parts: (string, string, string))
    ensures ParseKey(key) == Ok(parts) <==>
              && key == parts.0 + ":" + parts.1 + ":" + parts.2 && parts.0 != "" && parts.1 != ""
              && SEPARATOR !in parts.0 && SEPARATOR !in parts.1 && SEPARATOR !in parts.2
    ensures ParseKey(key).Err? ==> ParseKey(key) == Err(Malformed)
  {
    var (purpose, scope, subject) := parts;
    if ParseKey(key) == Ok(parts) {
      var split := Split(key);
      SplitJoins(key);
      assert Joined(split[1..][1..]) == subject && Joined(split[1..]) == scope + ":" + subject;
      assert key == purpose + ":" + (scope + ":" + subject) == purpose + ":" + scope + ":" + subject;
    } else if SEPARATOR !in purpose && SEPARATOR !in scope && SEPARATOR !in subject {
      SplitAtSeparator(purpose, scope + ":" + subject);
      SplitAtSeparator(scope, subject);
      SplitPlain(subject);
      assert purpose + ":" + (scope + ":" + subject) == purpose + ":" + scope + ":" + subject;
    }
  }

  // ---------------------------------------------------------------- payout keys

  const PAYOUT_PURPOSES := ["payout", "payoutfx", "payoutrev", "payoutfxrev"]

  /** The posting keys of payouts collide only when they are the same key of the same payout. */
  lemma PayoutKeysDistinct(i: nat, m1: string, po1: string, j: nat, m2: string, po2: string)
    requires i < |PAYOUT_PURPOSES| && j < |PAYOUT_PURPOSES|
    requires LedgerKey(PAYOUT_PURPOSES[i], m1, po1).Ok? && LedgerKey(PAYOUT_PURPOSES[j], m2, po2).Ok?
    ensures LedgerKey(PAYOUT_PURPOSES[i], m1, po1) == LedgerKey(PAYOUT_PURPOSES[j], m2, po2)
            <==> i == j && m1 == m2 && po1 == po2
  {
    if LedgerKey(PAYOUT_PURPOSES[i], m1, po1) == LedgerKey(PAYOUT_PURPOSES[j], m2, po2) {
      KeyInjective(PAYOUT_PURPOSES[i], m1, po1, PAYOUT_PURPOSES[j], m2, po2);
      PurposesDistinct(i, j);
    }
  }

  lemma PurposesDistinct(i: nat, j: nat)
    requires i < |PAYOUT_PURPOSES| && j < |PAYOUT_PURPOSES| && PAYOUT_PURPOSES[i] == PAYOUT_PURPOSES[j]
    ensures i == j
  {
    assert |PAYOUT_PURPOSES[0]| == 6 && |PAYOUT_PURPOSES[1]| == 8 && |PAYOUT_PURPOSES[2]| == 9;
    assert |PAYOUT_PURPOSES[3]| == 11;
  }
}
