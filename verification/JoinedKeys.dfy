/** Keys made by joining fields with a separator, and when the fields can be told from the key:
 * internal/service/monitor/prometheus.go, internal/worker/sync_worker.go, internal/service/hostmapping/service.go. */
module JoinedKeys {
  import opened Text

  // ---------------------------------------------------------------- %d

  function DigitChar(d: nat): char
    requires d < 10
  {
    '0' + d as char
  }

  function DigitsText(n: nat): (s: string)
    ensures s != "" && forall c <- s :: '0' <= c <= '9'
  {
    if n < 10 then [DigitChar(n)] else DigitsText(n / 10) + [DigitChar(n % 10)]
  }

  function IntText(n: int): string {
    if n < 0 then "-" + DigitsText(-n) else DigitsText(n)
  }

  function DigitsValue(s: string): int {
    if s == "" then 0 else DigitsValue(s[..|s| - 1]) * 10 + (Last(s) as int - '0' as int)
  }

  lemma {:induction false} DigitsBack(n: nat)
    ensures DigitsValue(DigitsText(n)) == n
  {
    var s := DigitsText(n);
    if n < 10 {
      assert s[..|s| - 1] == "";
    } else {
      DigitsBack(n / 10);
      assert s[..|s| - 1] == DigitsText(n / 10);
    }
  }

  lemma {:induction false} IntTextInjective(a: int, b: int)
    requires IntText(a) == IntText(b)
    ensures a == b
  {
    hide DigitsText;
    var s, x, y := IntText(a), DigitsText(if a < 0 then -a else a), DigitsText(if b < 0 then -b else b);
    assert a < 0 <==> s[0] == '-' by { assert a >= 0 ==> s[0] in x; }
    assert b < 0 <==> s[0] == '-' by { assert b >= 0 ==> s[0] in y; }
    assert a < 0 ==> x == s[1..] && y == s[1..];
    DigitsBack(if a < 0 then -a else a);
    DigitsBack(if b < 0 then -b else b);
  }

  lemma {:induction false} IntTextPlain(n: int)
    ensures '|' !in IntText(n)
  {
    hide DigitsText;
  }

  // ---------------------------------------------------------------- the batch query key

  datatype BatchItem = BatchItem(id: string, query: string, start: int, end: int, step: string, instant: bool)

  function BatchKey(q: BatchItem): string {
    (if q.instant then "1" else "0") + "|" + q.query + "|" + IntText(q.start) + "|" + IntText(q.end) + "|" + q.step
  }

  /** Everything of an item but its id. */
  ghost predicate SameQuery(p: BatchItem, q: BatchItem) {
    p.instant == q.instant && p.query == q.query && p.start == q.start && p.end == q.end && p.step == q.step
  }

  /** With pipe-free steps, equal keys mean equal queries, even when the query text contains pipes. */
  lemma {:induction false} BatchKeyInjective(p: BatchItem, q: BatchItem)
    requires '|' !in p.step && '|' !in q.step
    ensures BatchKey(p) == BatchKey(q) <==> SameQuery(p, q)
  {
    hide IntText;
    if BatchKey(p) == BatchKey(q) {
      var p0, q0 := (if p.instant then "1" else "0"), (if q.instant then "1" else "0");
      var p1, q1 := p0 + "|" + p.query, q0 + "|" + q.query;
      var p2, q2 := p1 + "|" + IntText(p.start), q1 + "|" + IntText(q.start);
      var p3, q3 := p2 + "|" + IntText(p.end), q2 + "|" + IntText(q.end);
      IntTextPlain(p.start);
      IntTextPlain(q.start);
      IntTextPlain(p.end);
      IntTextPlain(q.end);
      LastSeparator(p3, p.step, q3, q.step, '|');
      LastSeparator(p2, IntText(p.end), q2, IntText(q.end), '|');
      LastSeparator(p1, IntText(p.start), q1, IntText(q.start), '|');
      FirstSeparator(p0, p.query, q0, q.query, '|');
      IntTextInjective(p.start, q.start);
      IntTextInjective(p.end, q.end);
    }
  }

  /** The text ends like a printed start and end time, as far as it reaches back. */
  ghost predicate EndsInTimes(t: string) {
    || (exists j :: t == IntText(j))
    || (exists i, j :: t == IntText(i) + "|" + IntText(j))
    || (exists u, i, j :: t == u + "|" + IntText(i) + "|" + IntText(j))
  }

  /** Step `a` ends with step `b`, and what comes before can be taken for times. */
  ghost predicate Absorbs(a: string, b: string) {
    |a| > |b| && a[|a| - |b| - 1..] == "|" + b && EndsInTimes(a[..|a| - |b| - 1])
  }

  ghost predicate Collide(p: BatchItem, q: BatchItem) {
    BatchKey(p) == BatchKey(q) && !SameQuery(p, q)
  }

  /** Equal steps never make two queries share a key, with pipes or without. */
  lemma {:induction false} SameStepInjective(p: BatchItem, q: BatchItem)
    requires p.step == q.step && BatchKey(p) == BatchKey(q)
    ensures SameQuery(p, q)
  {
    hide IntText;
    var p', q' := p.(step := ""), q.(step := "");
    assert BatchKey(p)[..|BatchKey(p)| - |p.step|] == BatchKey(p')
           && BatchKey(q)[..|BatchKey(q)| - |q.step|] == BatchKey(q');
    BatchKeyInjective(p', q');
  }

  lemma {:induction false} LongerStepAbsorbs(p: BatchItem, q: BatchItem)
    requires BatchKey(p) == BatchKey(q) && |p.step| > |q.step|
    ensures Absorbs(p.step, q.step)
  {
    hide IntText, EndsInTimes;
    var before, key := |p.step| - |q.step| - 1, BatchKey(p);
    var t := p.step[..before];
    var p3 := (if p.instant then "1" else "0") + "|" + p.query + "|" + IntText(p.start) + "|" + IntText(p.end);
    var q1 := (if q.instant then "1" else "0") + "|" + q.query;
    var i, j := IntText(q.start), IntText(q.end);
    var q3 := q1 + "|" + i + "|" + j;
    assert key == p3 + "|" + p.step && key == q3 + "|" + q.step;
    assert p.step == key[|key| - |p.step|..] && "|" + q.step == key[|key| - |q.step| - 1..];
    assert p.step[before..] == "|" + q.step;
    assert q3 == key[..|key| - |q.step| - 1];
    assert p3 + "|" + t == q3;
    TailIsTimes(p3, t, q1, q.start, q.end);
  }

  lemma {:induction false} TailIsTimes(a: string, t: string, b: string, i: int, j: int)
    requires a + "|" + t == b + "|" + IntText(i) + "|" + IntText(j)
    ensures EndsInTimes(t)
  {
    hide IntText;
    IntTextPlain(i);
    IntTextPlain(j);
    if '|' in t {
      var t1, t2 := SplitLast(t, '|');
      assert a + "|" + t == (a + "|" + t1) + "|" + t2;
      LastSeparator(a + "|" + t1, t2, b + "|" + IntText(i), IntText(j), '|');
      if '|' in t1 {
        var u, t3 := SplitLast(t1, '|');
        assert a + "|" + t1 == (a + "|" + u) + "|" + t3;
        LastSeparator(a + "|" + u, t3, b, IntText(i), '|');
        assert t == u + "|" + IntText(i) + "|" + IntText(j);
      } else {
        LastSeparator(a, t1, b, IntText(i), '|');
      }
    } else {
      LastSeparator(a, t, b + "|" + IntText(i), IntText(j), '|');
    }
  }

  lemma {:induction false} SplitLast(s: string, sep: char) returns (a: string, b: string)
    requires sep in s
    ensures s == a + [sep] + b && sep !in b
  {
    if s[|s| - 1] == sep {
      a, b := s[..|s| - 1], "";
    } else {
      var front := s[..|s| - 1];
      assert s == front + [s[|s| - 1]];
      a, b := SplitLast(front, sep);
      b := b + [s[|s| - 1]];
    }
  }

  lemma {:induction false} AbsorbsCollide(a: string, b: string)
    requires Absorbs(a, b)
    ensures exists p: BatchItem, q: BatchItem :: p.step == a && q.step == b && Collide(p, q)
  {
    hide IntText, EndsInTimes;
    var t := a[..|a| - |b| - 1];
    var start, end, query := TimesOf(t);
    var p, q := BatchItem("", "", 0, 1, a, false), BatchItem("", query, start, end, b, false);
    assert a == t + "|" + b;
    EmptyQueryKey(IntText(0), IntText(1), t, b);
    QueryKey(query, IntText(start), IntText(end), b);
    assert Collide(p, q);
  }

  lemma {:induction false} EmptyQueryKey(start: string, end: string, t: string, step: string)
    ensures "0" + "|" + "" + "|" + start + "|" + end + "|" + (t + "|" + step)
            == "0|" + ("|" + start + "|" + end + "|" + t) + "|" + step
  {
  }

  lemma {:induction false} QueryKey(query: string, start: string, end: string, step: string)
    ensures "0" + "|" + query + "|" + start + "|" + end + "|" + step
            == "0|" + (query + "|" + start + "|" + end) + "|" + step
  {
  }

  /** Start, end and query of an item whose key runs on as that of an empty query from 0 to 1 with a step that
    * begins with t. */
  lemma {:induction false} TimesOf(t: string) returns (start: int, end: int, query: string)
    requires EndsInTimes(t)
    ensures "|" + IntText(0) + "|" + IntText(1) + "|" + t == query + "|" + IntText(start) + "|" + IntText(end)
  {
    hide IntText;
    var x, y := "|" + IntText(0), "|" + IntText(0) + "|" + IntText(1);
    if j :| t == IntText(j) {
      start, end, query := 1, j, x;
    } else if i, j :| t == IntText(i) + "|" + IntText(j) {
      start, end, query := i, j, y;
      TwoTimes(y, IntText(i), IntText(j));
    } else {
      var u, i, j :| t == u + "|" + IntText(i) + "|" + IntText(j);
      start, end, query := i, j, y + "|" + u;
      TextAndTimes(y, u, IntText(i), IntText(j));
    }
  }

  lemma {:induction false} TwoTimes(a: string, i: string, j: string)
    ensures a + "|" + (i + "|" + j) == a + "|" + i + "|" + j
  {
  }

  lemma {:induction false} TextAndTimes(a: string, u: string, i: string, j: string)
    ensures a + "|" + (u + "|" + i + "|" + j) == a + "|" + u + "|" + i + "|" + j
  {
  }

  /** Two different queries with these steps can share a key if and only if one step absorbs the other. */
  lemma {:induction false} StepsCollideIff(a: string, b: string)
    ensures (exists p: BatchItem, q: BatchItem :: p.step == a && q.step == b && Collide(p, q))
            <==> Absorbs(a, b) || Absorbs(b, a)
  {
    hide BatchKey, Absorbs;
    if p: BatchItem, q: BatchItem :| p.step == a && q.step == b && Collide(p, q) {
      if |a| > |b| {
        LongerStepAbsorbs(p, q);
      } else if |a| < |b| {
        LongerStepAbsorbs(q, p);
      } else {
        SameLengthSteps(p, q);
      }
    }
    if Absorbs(a, b) {
      AbsorbsCollide(a, b);
    }
    if Absorbs(b, a) {
      AbsorbsCollide(b, a);
      var q: BatchItem, p: BatchItem :| q.step == b && p.step == a && Collide(q, p);
      assert Collide(p, q);
    }
  }

  lemma {:induction false} SameLengthSteps(p: BatchItem, q: BatchItem)
    requires BatchKey(p) == BatchKey(q) && |p.step| == |q.step|
    ensures SameQuery(p, q)
  {
    hide IntText;
    var key := BatchKey(p);
    assert p.step == key[|key| - |p.step|..] && q.step == key[|key| - |q.step|..];
    SameStepInjective(p, q);
  }

  // ---------------------------------------------------------------- the seven-field ACL key

  datatype AclFields = AclFields(resourceType: string, resourceName: string, pattern: string, principal: string,
                                 host: string, operation: string, permission: string)

  function AclKey(a: AclFields): string {
    a.resourceType + ":" + (a.resourceName + ":" + (a.pattern + ":" +
    (a.principal + ":" + a.host + ":" + a.operation + ":" + a.permission)))
  }

  /** Every field but the principal, which Kafka writes as "User:name". */
  predicate ColonFree(a: AclFields) {
    ':' !in a.resourceType && ':' !in a.resourceName && ':' !in a.pattern && ':' !in a.host && ':' !in a.operation
      && ':' !in a.permission
  }

  lemma {:induction false} AclKeyInjective(a: AclFields, b: AclFields)
    requires ColonFree(a) && ColonFree(b)
    ensures AclKey(a) == AclKey(b) <==> a == b
  {
    if AclKey(a) == AclKey(b) {
      var a4, b4 := a.principal + ":" + a.host, b.principal + ":" + b.host;
      var a5, b5 := a4 + ":" + a.operation, b4 + ":" + b.operation;
      var a6, b6 := a5 + ":" + a.permission, b5 + ":" + b.permission;
      FirstSeparator(a.resourceType, a.resourceName + ":" + (a.pattern + ":" + a6), b.resourceType,
                     b.resourceName + ":" + (b.pattern + ":" + b6), ':');
      FirstSeparator(a.resourceName, a.pattern + ":" + a6, b.resourceName, b.pattern + ":" + b6, ':');
      FirstSeparator(a.pattern, a6, b.pattern, b6, ':');
      LastSeparator(a5, a.permission, b5, b.permission, ':');
      LastSeparator(a4, a.operation, b4, b.operation, ':');
      LastSeparator(a.principal, a.host, b.principal, b.host, ':');
    }
  }

  ghost predicate AclsCollide(a: AclFields, b: AclFields) {
    AclKey(a) == AclKey(b) && a != b
  }

  /** Nothing but the principal and, perhaps, the host has a colon. */
  predicate ColonFreeButHost(a: AclFields) {
    ':' !in a.resourceType && ':' !in a.resourceName && ':' !in a.pattern && ':' !in a.operation && ':' !in a.permission
  }

  /** Nothing but the principal and, perhaps, the resource name has a colon. */
  predicate ColonFreeButName(a: AclFields) {
    ':' !in a.resourceType && ':' !in a.pattern && ':' !in a.host && ':' !in a.operation && ':' !in a.permission
  }

  predicate EndsWith(s: string, end: string) {
    |end| <= |s| && s[|s| - |end|..] == end
  }

  /** What is left of equal keys when everything but principal and host is taken off. */
  lemma {:induction false} PrincipalAndHost(a: AclFields, b: AclFields)
    requires ColonFreeButHost(a) && ColonFreeButHost(b) && AclKey(a) == AclKey(b)
    ensures a.principal + ":" + a.host == b.principal + ":" + b.host
    ensures a.(principal := b.principal, host := b.host) == b
  {
    var a4, b4 := a.principal + ":" + a.host, b.principal + ":" + b.host;
    var a5, b5 := a4 + ":" + a.operation, b4 + ":" + b.operation;
    var a6, b6 := a5 + ":" + a.permission, b5 + ":" + b.permission;
    FirstSeparator(a.resourceType, a.resourceName + ":" + (a.pattern + ":" + a6), b.resourceType,
                   b.resourceName + ":" + (b.pattern + ":" + b6), ':');
    FirstSeparator(a.resourceName, a.pattern + ":" + a6, b.resourceName, b.pattern + ":" + b6, ':');
    FirstSeparator(a.pattern, a6, b.pattern, b6, ':');
    LastSeparator(a5, a.permission, b5, b.permission, ':');
    LastSeparator(a4, a.operation, b4, b.operation, ':');
  }

  lemma {:induction false} LongerHost(p: string, h: string, p': string, h': string)
    requires p + ":" + h == p' + ":" + h' && (p != p' || h != h')
    ensures EndsWith(h, ":" + h') || EndsWith(h', ":" + h)
  {
    SameLengths(p, h, p', h');
    var s := p + ":" + h;
    if |h| > |h'| {
      assert h == s[|s| - |h|..] && ":" + h' == s[|s| - |h'| - 1..];
    } else {
      assert h' == s[|s| - |h'|..] && ":" + h == s[|s| - |h| - 1..];
    }
  }

  lemma {:induction false} SameLengths(p: string, h: string, p': string, h': string)
    requires p + ":" + h == p' + ":" + h'
    ensures |h| == |h'| ==> p == p' && h == h'
  {
    if |h| == |h'| {
      var s := p + ":" + h;
      assert p == s[..|p|] && p' == s[..|p|] && h == s[|p| + 1..] && h' == s[|p| + 1..];
    }
  }

  lemma {:induction false} HostsCollide(h: string, h': string)
    requires EndsWith(h, ":" + h')
    ensures exists a: AclFields, b: AclFields ::
              a.host == h && b.host == h' && ColonFreeButHost(a) && ColonFreeButHost(b) && AclsCollide(a, b)
  {
    var x := h[..|h| - |h'| - 1];
    var a, b := AclFields("", "", "", "", h, "", ""), AclFields("", "", "", ":" + x, h', "", "");
    assert h == x + (":" + h');
    assert a.principal + ":" + a.host == b.principal + ":" + b.host;
    assert AclsCollide(a, b);
  }

  /** Two hosts can share a key between different entries in which only the principal and the host have colons, if
    * and only if one host ends with a colon and the other: an IPv6 address with another one at its end. */
  lemma {:induction false} HostsCollideIff(h: string, h': string)
    ensures (exists a: AclFields, b: AclFields ::
               a.host == h && b.host == h' && ColonFreeButHost(a) && ColonFreeButHost(b) && AclsCollide(a, b))
            <==> EndsWith(h, ":" + h') || EndsWith(h', ":" + h)
  {
    hide AclKey, ColonFreeButHost, EndsWith;
    if a: AclFields, b: AclFields :|
         a.host == h && b.host == h' && ColonFreeButHost(a) && ColonFreeButHost(b) && AclsCollide(a, b) {
      PrincipalAndHost(a, b);
      LongerHost(a.principal, h, b.principal, h');
    }
    if EndsWith(h, ":" + h') {
      HostsCollide(h, h');
    }
    if EndsWith(h', ":" + h) {
      HostsCollide(h', h);
      var b: AclFields, a: AclFields :|
        b.host == h' && a.host == h && ColonFreeButHost(b) && ColonFreeButHost(a) && AclsCollide(b, a);
      assert AclsCollide(a, b);
    }
  }

  /** For example: */
  lemma {:induction false} AclKeyCollides()
    ensures var a := AclFields("topic", "t", "literal", "User:a", "b:c", "read", "allow");
            var b := AclFields("topic", "t", "literal", "User:a:b", "c", "read", "allow");
            AclKey(a) == AclKey(b) && a != b
  {
    assert "User:a" + ":" + "b:c" == "User:a:b" + ":" + "c";
  }

  /** What is left of equal keys when everything but name, pattern and principal is taken off. */
  lemma {:induction false} NameToPrincipal(a: AclFields, b: AclFields)
    requires ColonFreeButName(a) && ColonFreeButName(b) && AclKey(a) == AclKey(b)
    ensures a.resourceName + ":" + (a.pattern + ":" + a.principal)
            == b.resourceName + ":" + (b.pattern + ":" + b.principal)
    ensures a.(resourceName := b.resourceName, pattern := b.pattern, principal := b.principal) == b
  {
    var a3 := a.resourceName + ":" + (a.pattern + ":" + a.principal);
    var b3 := b.resourceName + ":" + (b.pattern + ":" + b.principal);
    var a4, b4 := a3 + ":" + a.host, b3 + ":" + b.host;
    var a5, b5 := a4 + ":" + a.operation, b4 + ":" + b.operation;
    FirstSeparator(a.resourceType, a5 + ":" + a.permission, b.resourceType, b5 + ":" + b.permission, ':') by {
      KeyFromTheRight(a);
      KeyFromTheRight(b);
    }
    LastSeparator(a5, a.permission, b5, b.permission, ':');
    LastSeparator(a4, a.operation, b4, b.operation, ':');
    LastSeparator(a3, a.host, b3, b.host, ':');
  }

  lemma {:induction false} KeyFromTheRight(a: AclFields)
    ensures AclKey(a) == a.resourceType + ":"
            + (a.resourceName + ":" + (a.pattern + ":" + a.principal) + ":" + a.host + ":" + a.operation + ":"
               + a.permission)
  {
    Right(a.resourceName, a.pattern, a.principal, a.host, a.operation, a.permission);
  }

  lemma {:induction false} Right(n: string, p: string, u: string, h: string, o: string, e: string)
    ensures n + ":" + (p + ":" + (u + ":" + h + ":" + o + ":" + e))
            == n + ":" + (p + ":" + u) + ":" + h + ":" + o + ":" + e
  {
  }

  /** The shorter name and its pattern begin the longer name. */
  lemma {:induction false} LongerName(n: string, p: string, u: string, n': string, p': string, u': string)
    requires n + ":" + (p + ":" + u) == n' + ":" + (p' + ":" + u') && ':' !in p && ':' !in p'
    requires (n != n' || p != p' || u != u')
    ensures n + ":" + p + ":" <= n' + ":" || n' + ":" + p' + ":" <= n + ":"
  {
    var s := n + ":" + (p + ":" + u);
    if |n| < |n'| {
      BeginsLonger(n, p, u, n', p' + ":" + u');
    } else if |n'| < |n| {
      BeginsLonger(n', p', u', n, p + ":" + u);
    } else {
      assert n == s[..|n|] && n' == s[..|n|] && p + ":" + u == s[|n| + 1..] && p' + ":" + u' == s[|n| + 1..];
      FirstSeparator(p, u, p', u', ':');
    }
  }

  lemma {:induction false} BeginsLonger(n: string, p: string, u: string, n': string, rest: string)
    requires n + ":" + (p + ":" + u) == n' + ":" + rest && ':' !in p && |n| < |n'|
    ensures n + ":" + p + ":" <= n' + ":"
  {
    var s, k := n' + ":" + rest, |n| + 1 + |p|;
    assert s[|n'|] == ':' && n' + ":" == s[..|n'| + 1];
    assert n + ":" + p + ":" == s[..k + 1];
    assert forall i :: |n| < i < k ==> s[i] == p[i - |n| - 1];
  }

  lemma {:induction false} NamesCollide(n: string, p: string, n': string, p': string)
    requires n + ":" + p + ":" <= n' + ":" && ':' !in p && ':' !in p'
    ensures exists a: AclFields, b: AclFields ::
              && a.resourceName == n && a.pattern == p && b.resourceName == n' && b.pattern == p'
              && ColonFreeButName(a) && ColonFreeButName(b) && AclsCollide(a, b)
  {
    hide AclKey;
    var rest := (n' + ":")[|n| + |p| + 2..];
    var a, b := AclFields("", n, p, rest + p' + ":", "", "", ""), AclFields("", n', p', "", "", "", "");
    assert n' + ":" == n + ":" + p + ":" + rest;
    assert n + ":" + (p + ":" + (rest + p' + ":")) == n' + ":" + (p' + ":" + "");
    KeyFromTheRight(a);
    KeyFromTheRight(b);
    assert |a.principal| > 0 == |b.principal|;
    assert ColonFreeButName(a) && ColonFreeButName(b) && AclsCollide(a, b);
  }

  /** Two resource names with their patterns can share a key between different entries in which only the principal
    * and the name have colons, if and only if one name, its pattern and their colons begin the other name. */
  lemma {:induction false} NamesCollideIff(n: string, p: string, n': string, p': string)
    requires ':' !in p && ':' !in p'
    ensures (exists a: AclFields, b: AclFields ::
               && a.resourceName == n && a.pattern == p && b.resourceName == n' && b.pattern == p'
               && ColonFreeButName(a) && ColonFreeButName(b) && AclsCollide(a, b))
            <==> n + ":" + p + ":" <= n' + ":" || n' + ":" + p' + ":" <= n + ":"
  {
    hide AclKey, ColonFreeButName;
    if a: AclFields, b: AclFields :|
         && a.resourceName == n && a.pattern == p && b.resourceName == n' && b.pattern == p'
         && ColonFreeButName(a) && ColonFreeButName(b) && AclsCollide(a, b) {
      NameToPrincipal(a, b);
      LongerName(n, p, a.principal, n', p', b.principal);
    }
    if n + ":" + p + ":" <= n' + ":" {
      NamesCollide(n, p, n', p');
    }
    if n' + ":" + p' + ":" <= n + ":" {
      NamesCollide(n', p', n, p);
      var b: AclFields, a: AclFields :|
        && b.resourceName == n' && b.pattern == p' && a.resourceName == n && a.pattern == p
        && ColonFreeButName(b) && ColonFreeButName(a) && AclsCollide(b, a);
      assert AclsCollide(a, b);
    }
  }

  // ---------------------------------------------------------------- the host-mapping cache key

  function CacheKey(hostname: string, cluster: string): string {
    cluster + ":" + hostname
  }

  lemma {:induction false} CacheKeyInjective(h: string, c: string, h': string, c': string)
    requires ':' !in c && ':' !in c'
    ensures CacheKey(h, c) == CacheKey(h', c') <==> h == h' && c == c'
  {
    if CacheKey(h, c) == CacheKey(h', c') {
      FirstSeparator(c, h, c', h', ':');
    }
  }

  /** Two cluster names share a cache key for some hostnames if and only if one, with its colon, begins like the
    * other. */
  lemma {:induction false} ClustersCollideIff(c: string, c': string)
    ensures (exists h, h' :: CacheKey(h, c) == CacheKey(h', c')) <==> c + ":" <= c' + ":" || c' + ":" <= c + ":"
  {
    if h, h' :| CacheKey(h, c) == CacheKey(h', c') {
      var key := CacheKey(h, c);
      assert c + ":" == key[..|c| + 1] && c' + ":" == key[..|c'| + 1];
    }
    if c + ":" <= c' + ":" {
      var h := (c' + ":")[|c| + 1..];
      assert CacheKey(h, c) == CacheKey("", c');
    }
    if c' + ":" <= c + ":" {
      var h := (c + ":")[|c'| + 1..];
      assert CacheKey("", c) == CacheKey(h, c');
    }
  }
}
