/** How a broadcast's audience travels in a NATS subject (broadcast.go). */
module Subjects {

  predicate Replaced(c: char) {
    c in {'.', ' ', '\t', '\n', '\r', '*', '>'}
  }

  /** strings.Map over the seven characters a subject token cannot hold. */
  function SubjectToken(s: string): (t: string)
    ensures |t| == |s|
  {
    seq(|s|, i requires 0 <= i < |s| => if Replaced(s[i]) then '_' else s[i])
  }

  function ToToken(s: string): string {
    if s == "" then "_" else SubjectToken(s)
  }

  function FromToken(s: string): string {
    if s == "_" then "" else s
  }

  predicate Clean(s: string) {
    forall c | c in s :: !Replaced(c)
  }

  /** What the other pods read back. */
  function Relayed(s: string): string {
    FromToken(ToToken(s))
  }

  lemma TokenIsClean(s: string)
    ensures Clean(SubjectToken(s)) && Clean(ToToken(s))
    ensures SubjectToken(s) == s <==> Clean(s)
    ensures forall i | 0 <= i < |s| ::
      SubjectToken(s)[i] == if s[i] in {'.', ' ', '\t', '\n', '\r', '*', '>'} then '_' else s[i]
    ensures Clean(s) <==> forall i | 0 <= i < |s| :: s[i] !in {'.', ' ', '\t', '\n', '\r', '*', '>'}
  {
    var t := SubjectToken(s);
    forall c | c in t ensures !Replaced(c) {
      var i :| 0 <= i < |t| && t[i] == c;
    }
    if Clean(s) {
      assert forall i | 0 <= i < |s| :: s[i] in s;
      assert t == s;
    }
  }

  lemma SubjectTokenIdempotent(s: string)
    ensures SubjectToken(SubjectToken(s)) == SubjectToken(s)
  {
    TokenIsClean(s);
    TokenIsClean(SubjectToken(s));
  }

  /** A name survives the relay exactly when it is clean and is not the placeholder itself. */
  lemma SurvivesRelay(s: string)
    ensures Relayed(s) == s <==> Clean(s) && s != "_"
  {
    TokenIsClean(s);
    if s != "" && s != "_" && !Clean(s) {
      assert s != SubjectToken(s);
    }
  }

  /** strings.Join(tokens, ".") */
  function Join(tokens: seq<string>): string
    requires tokens != []
  {
    if |tokens| == 1 then tokens[0] else tokens[0] + "." + Join(tokens[1..])
  }

  /** strings.Split(s, ".") */
  function Split(s: string): (tokens: seq<string>)
    ensures tokens != []
  {
    if s == "" then [""]
    else
      var rest := Split(s[1..]);
      if s[0] == '.' then [""] + rest else [[s[0]] + rest[0]] + rest[1..]
  }

  lemma {:induction false} SplitOne(s: string)
    requires '.' !in s
    ensures Split(s) == [s]
  {
    if s != "" {
      assert forall c | c in s[1..] :: c in s;
      SplitOne(s[1..]);
      assert s[0] in s && [s[0]] + s[1..] == s;
    }
  }

  lemma {:induction false} SplitFirst(a: string, rest: string)
    requires '.' !in a
    ensures Split(a + "." + rest) == [a] + Split(rest)
  {
    var s := a + "." + rest;
    if a == "" {
      assert s[1..] == rest;
    } else {
      assert forall c | c in a[1..] :: c in a;
      assert s[1..] == a[1..] + "." + rest;
      assert a[0] in a;
      SplitFirst(a[1..], rest);
      assert [a[0]] + a[1..] == a;
      assert ([a[1..]] + Split(rest))[1..] == Split(rest);
    }
  }

  lemma {:induction false} SplitInvertsJoin(tokens: seq<string>)
    requires tokens != [] && forall t | t in tokens :: '.' !in t
    ensures Split(Join(tokens)) == tokens
  {
    if |tokens| == 1 {
      SplitOne(tokens[0]);
    } else {
      SplitFirst(tokens[0], Join(tokens[1..]));
      SplitInvertsJoin(tokens[1..]);
    }
  }

  function Subject(namespace: string, topic: string, tenant: string, scope: string): string {
    Join(["_rt", namespace, topic, ToToken(tenant), ToToken(scope)])
  }

  /** Every subject built by Publish splits into five tokens that give its parts back. */
  lemma SubjectHasFiveTokens(namespace: string, topic: string, tenant: string, scope: string)
    requires Clean(namespace) && Clean(topic)
    ensures Split(Subject(namespace, topic, tenant, scope))
      == ["_rt", namespace, topic, ToToken(tenant), ToToken(scope)]
  {
    TokenIsClean(tenant);
    TokenIsClean(scope);
    assert Replaced('.');
    SplitInvertsJoin(["_rt", namespace, topic, ToToken(tenant), ToToken(scope)]);
  }
}
