/** Searching by keyword: internal/repository/topic_repository.go, user_repository.go, host_mapping_repository.go.
 *
 * The like predicate is modelled from its definition (section 8.5 of ISO/IEC 9075-2) with the escape character "\"
 * that MySQL and PostgreSQL assume; its partner is plain substring search. */
module TopicSearch {
  import opened Text

  /** `name LIKE pattern`. */
  predicate LikeMatch(pattern: string, name: string)
    decreases |pattern| + |name|
  {
    if pattern == "" then name == ""
    else if pattern[0] == '%' then LikeMatch(pattern[1..], name) || (name != "" && LikeMatch(pattern, name[1..]))
    else if name == "" then false
    else if pattern[0] == '_' then LikeMatch(pattern[1..], name[1..])
    else if pattern[0] == '\\' && |pattern| >= 2 then name[0] == pattern[1] && LikeMatch(pattern[2..], name[1..])
    else name[0] == pattern[0] && LikeMatch(pattern[1..], name[1..])
  }

  function EscapeLikeKeyword(keyword: string): string {
    ReplaceAll(ReplaceAll(ReplaceAll(keyword, '\\', "\\\\"), '%', "\\%"), '_', "\\_")
  }

  function LikeKeyword(keyword: string): string {
    "%" + EscapeLikeKeyword(keyword) + "%"
  }

  // ---------------------------------------------------------------- escaping

  predicate Wildcard(c: char) {
    c == '\\' || c == '%' || c == '_'
  }

  function EscapeLikeChar(c: char): string {
    if Wildcard(c) then ['\\', c] else [c]
  }

  lemma {:induction false} EscapeOneLikeChar(c: char)
    ensures EscapeLikeKeyword([c]) == EscapeLikeChar(c)
  {
    ReplaceAllOne(c, '\\', "\\\\");
    ReplaceAllOne(c, '%', "\\%");
    ReplaceAllOne(c, '_', "\\_");
    if c == '\\' {
      forall d, sub | d != '\\' ensures ReplaceAll("\\\\", d, sub) == "\\\\" {
        ReplaceAllAppend("\\", "\\", d, sub);
        ReplaceAllOne('\\', d, sub);
      }
    } else if c == '%' {
      ReplaceAllAppend("\\", "%", '_', "\\_");
      ReplaceAllOne('\\', '_', "\\_");
      ReplaceAllOne('%', '_', "\\_");
    }
  }

  /** The three passes equal one character-wise pass. */
  lemma {:induction false} EscapeLikeIsOnePass(k: string)
    ensures EscapeLikeKeyword(k) == MapChars(EscapeLikeChar, k)
  {
    if k != "" {
      EscapeLikeIsOnePass(k[1..]);
      var a := [k[0]];
      assert k == a + k[1..];
      ReplaceAllAppend(a, k[1..], '\\', "\\\\");
      var a1, r1 := ReplaceAll(a, '\\', "\\\\"), ReplaceAll(k[1..], '\\', "\\\\");
      ReplaceAllAppend(a1, r1, '%', "\\%");
      var a2, r2 := ReplaceAll(a1, '%', "\\%"), ReplaceAll(r1, '%', "\\%");
      ReplaceAllAppend(a2, r2, '_', "\\_");
      EscapeOneLikeChar(k[0]);
    }
  }

  // ---------------------------------------------------------------- matching

  lemma {:induction false} PercentMatchesAll(name: string)
    ensures LikeMatch("%", name)
  {
    if name != "" {
      PercentMatchesAll(name[1..]);
    } else {
      assert LikeMatch("%"[1..], name);
    }
  }

  lemma {:induction false} EscapedMatchesPrefix(k: string, name: string)
    ensures LikeMatch(EscapeLikeKeyword(k) + "%", name) <==> k <= name
  {
    hide EscapeLikeKeyword;
    EscapeLikeIsOnePass(k);
    if k == "" {
      assert EscapeLikeKeyword(k) + "%" == "%";
      PercentMatchesAll(name);
    } else {
      EscapeLikeIsOnePass(k[1..]);
      var rest := EscapeLikeKeyword(k[1..]) + "%";
      var pattern := EscapeLikeKeyword(k) + "%";
      assert pattern == EscapeLikeChar(k[0]) + rest;
      assert pattern[|EscapeLikeChar(k[0])|..] == rest;
      if name != "" {
        EscapedMatchesPrefix(k[1..], name[1..]);
        assert k <= name <==> k[0] == name[0] && k[1..] <= name[1..];
      }
    }
  }

  lemma {:induction false} LeadingPercent(pattern: string, name: string)
    ensures LikeMatch("%" + pattern, name) <==> exists i :: 0 <= i <= |name| && LikeMatch(pattern, name[i..])
    decreases |name|
  {
    assert ("%" + pattern)[1..] == pattern;
    assert name[0..] == name;
    if name != "" {
      LeadingPercent(pattern, name[1..]);
      forall i | 0 <= i <= |name| - 1 ensures name[1..][i..] == name[i + 1..] {
      }
      if i :| 1 <= i <= |name| && LikeMatch(pattern, name[i..]) {
        assert name[1..][i - 1..] == name[i..];
      }
    }
  }

  /** The pattern built from a keyword matches exactly the names that contain the keyword. */
  lemma {:induction false} LikeIsContains(keyword: string, name: string)
    ensures LikeMatch(LikeKeyword(keyword), name) <==> Contains(name, keyword)
  {
    hide EscapeLikeKeyword, LikeMatch;
    var pattern := EscapeLikeKeyword(keyword) + "%";
    assert LikeKeyword(keyword) == "%" + pattern;
    LeadingPercent(pattern, name);
    forall i | 0 <= i <= |name|
      ensures LikeMatch(pattern, name[i..]) <==> OccursAt(name, keyword, i)
    {
      EscapedMatchesPrefix(keyword, name[i..]);
      if i + |keyword| <= |name| {
        assert name[i..][..|keyword|] == name[i..i + |keyword|];
      }
    }
  }

  // ---------------------------------------------------------------- the queries

  datatype TopicRow = TopicRow(id: int, clusterId: int, name: string)
  datatype UserRow = UserRow(id: int, username: string, email: string)

  /** The rows of a table a WHERE clause selects, in the table's order. */
  function Select<T>(rows: seq<T>, where: T -> bool): seq<T> {
    if rows == [] then [] else Select(rows[..|rows| - 1], where) + if where(Last(rows)) then [Last(rows)] else []
  }

  function SearchWhere(clusterId: int, keyword: string): TopicRow -> bool {
    (row: TopicRow) => LikeMatch(LikeKeyword(keyword), row.name) && (clusterId > 0 ==> row.clusterId == clusterId)
  }

  function SearchInNamesWhere(clusterId: int, names: seq<string>, keyword: string): TopicRow -> bool {
    (row: TopicRow) => row.clusterId == clusterId && row.name in names && LikeMatch(LikeKeyword(keyword), row.name)
  }

  function SearchUsersWhere(keyword: string): UserRow -> bool {
    (row: UserRow) => LikeMatch(LikeKeyword(keyword), row.username) || LikeMatch(LikeKeyword(keyword), row.email)
  }

  function Search(rows: seq<TopicRow>, clusterId: int, keyword: string): seq<TopicRow> {
    Select(rows, SearchWhere(clusterId, keyword))
  }

  function SearchInNames(rows: seq<TopicRow>, clusterId: int, names: seq<string>, keyword: string): seq<TopicRow> {
    if names == [] then [] else Select(rows, SearchInNamesWhere(clusterId, names, keyword))
  }

  function SearchUsers(rows: seq<UserRow>, keyword: string): seq<UserRow> {
    Select(rows, SearchUsersWhere(keyword))
  }

  // What a user means by each search, with plain containment.

  ghost function TopicHas(clusterId: int, keyword: string): TopicRow -> bool {
    (row: TopicRow) => Contains(row.name, keyword) && (clusterId > 0 ==> row.clusterId == clusterId)
  }

  ghost function NamedTopicHas(clusterId: int, names: seq<string>, keyword: string): TopicRow -> bool {
    (row: TopicRow) => Contains(row.name, keyword) && row.clusterId == clusterId && row.name in names
  }

  ghost function UserHas(keyword: string): UserRow -> bool {
    (row: UserRow) => Contains(row.username, keyword) || Contains(row.email, keyword)
  }

  lemma {:induction false} SelectSame<T>(rows: seq<T>, where: T -> bool, where': T -> bool)
    requires forall i :: 0 <= i < |rows| ==> where(rows[i]) == where'(rows[i])
    ensures Select(rows, where) == Select(rows, where')
  {
    if rows != [] {
      SelectSame(rows[..|rows| - 1], where, where');
    }
  }

  lemma {:induction false} SelectNone<T>(rows: seq<T>, where: T -> bool)
    requires forall i :: 0 <= i < |rows| ==> !where(rows[i])
    ensures Select(rows, where) == []
  {
    if rows != [] {
      SelectNone(rows[..|rows| - 1], where);
    }
  }

  /** The result has exactly the rows with p, each as often as the table, in the table's order. */
  ghost predicate Chosen<T(!new)>(rows: seq<T>, result: seq<T>, p: T -> bool) {
    exists at :: ChosenAt(rows, result, p, at)
  }

  ghost predicate ChosenAt<T>(rows: seq<T>, result: seq<T>, p: T -> bool, at: seq<nat>) {
    && Picks(at, |rows|) && |at| == |result|
    && (forall i :: 0 <= i < |rows| ==> (i in at <==> p(rows[i])))
    && (forall j :: 0 <= j < |at| ==> result[j] == rows[at[j]])
  }

  lemma {:induction false} SelectChooses<T(!new)>(rows: seq<T>, where: T -> bool) returns (at: seq<nat>)
    ensures ChosenAt(rows, Select(rows, where), where, at)
  {
    hide ChosenAt;
    at := [];
    if rows == [] {
      ChooseNone(where);
    } else {
      var n := |rows| - 1;
      at := SelectChooses(rows[..n], where);
      assert rows == rows[..n] + [Last(rows)];
      if where(Last(rows)) {
        ChooseLast(rows[..n], Select(rows[..n], where), where, at, Last(rows));
        at := at + [n];
      } else {
        SkipLast(rows[..n], Select(rows[..n], where), where, at, Last(rows));
        assert Select(rows, where) == Select(rows[..n], where);
      }
    }
  }

  lemma {:induction false} ChooseNone<T>(where: T -> bool)
    ensures ChosenAt([], [], where, [])
  {
  }

  lemma {:induction false} ChooseLast<T>(rows: seq<T>, result: seq<T>, p: T -> bool, at: seq<nat>, row: T)
    requires ChosenAt(rows, result, p, at) && p(row)
    ensures ChosenAt(rows + [row], result + [row], p, at + [|rows|])
  {
    forall i | 0 <= i < |rows + [row]| ensures i in at + [|rows|] <==> p((rows + [row])[i]) {
      assert i < |rows| ==> (i in at <==> p(rows[i]));
      assert |rows| !in at;
    }
  }

  lemma {:induction false} SkipLast<T>(rows: seq<T>, result: seq<T>, p: T -> bool, at: seq<nat>, row: T)
    requires ChosenAt(rows, result, p, at) && !p(row)
    ensures ChosenAt(rows + [row], result, p, at)
  {
    assert |rows| !in at;
  }

  /** All three searches return exactly the rows whose text contains the keyword, in order and with repetitions. */
  lemma {:induction false} SearchesAreContains(rows: seq<TopicRow>, users: seq<UserRow>, clusterId: int,
                                               names: seq<string>, keyword: string)
    ensures Search(rows, clusterId, keyword) == Select(rows, TopicHas(clusterId, keyword))
    ensures SearchInNames(rows, clusterId, names, keyword) == Select(rows, NamedTopicHas(clusterId, names, keyword))
    ensures SearchUsers(users, keyword) == Select(users, UserHas(keyword))
    ensures Chosen(rows, Search(rows, clusterId, keyword), TopicHas(clusterId, keyword))
    ensures Chosen(rows, SearchInNames(rows, clusterId, names, keyword), NamedTopicHas(clusterId, names, keyword))
    ensures Chosen(users, SearchUsers(users, keyword), UserHas(keyword))
  {
    hide LikeMatch, LikeKeyword, Contains, ChosenAt;
    var topics := SelectChooses(rows, TopicHas(clusterId, keyword));
    var named := SelectChooses(rows, NamedTopicHas(clusterId, names, keyword));
    var chosen := SelectChooses(users, UserHas(keyword));
    forall name ensures LikeMatch(LikeKeyword(keyword), name) <==> Contains(name, keyword) {
      LikeIsContains(keyword, name);
    }
    SelectSame(rows, SearchWhere(clusterId, keyword), TopicHas(clusterId, keyword));
    SelectSame(users, SearchUsersWhere(keyword), UserHas(keyword));
    if names == [] {
      SelectNone(rows, NamedTopicHas(clusterId, names, keyword));
    } else {
      SelectSame(rows, SearchInNamesWhere(clusterId, names, keyword), NamedTopicHas(clusterId, names, keyword));
    }
  }

  // ---------------------------------------------------------------- without escaping

  /** A name that a pattern matches: wildcards dropped or filled with an x. */
  function Witness(pattern: string): string {
    if pattern == "" then ""
    else if pattern[0] == '%' then Witness(pattern[1..])
    else if pattern[0] == '_' then "x" + Witness(pattern[1..])
    else if pattern[0] == '\\' && |pattern| >= 2 then [pattern[1]] + Witness(pattern[2..])
    else [pattern[0]] + Witness(pattern[1..])
  }

  lemma {:induction false} WitnessMatches(pattern: string)
    ensures LikeMatch(pattern, Witness(pattern))
  {
    if pattern != "" {
      if pattern[0] == '\\' && |pattern| >= 2 {
        WitnessMatches(pattern[2..]);
      } else {
        WitnessMatches(pattern[1..]);
      }
    }
  }

  lemma {:induction false} WitnessDiffers(k: string)
    ensures |Witness(k + "%")| <= |k|
    ensures Witness(k + "%") == k ==> forall c <- k :: !Wildcard(c)
  {
    var p, w := k + "%", Witness(k + "%");
    if k == "" {
      assert p[1..] == "";
    } else if k[0] == '\\' && |k| >= 2 {
      assert p[2..] == k[2..] + "%";
      WitnessDiffers(k[2..]);
      assert |w| < |k|;
    } else if k[0] == '\\' {
      assert p[2..] == "" && p[1] == '%';
    } else {
      assert p[1..] == k[1..] + "%";
      WitnessDiffers(k[1..]);
      var rest := Witness(p[1..]);
      if w == k {
        assert k[0] != '%' && k[0] != '_' && rest == w[1..] == k[1..];
        assert k == [k[0]] + k[1..];
      }
    }
  }

  lemma {:induction false} NoRoom(name: string, k: string)
    requires |name| <= |k| && Contains(name, k)
    ensures name == k
  {
    var i :| 0 <= i <= |name| && OccursAt(name, k, i);
    assert name[i..i + |k|] == name;
  }

  /** Without escaping, as the host-mapping list does it, the pattern is right for all names exactly when
    * the keyword has no wildcard in it. */
  lemma {:induction false} UnescapedIsContains(k: string)
    ensures (forall name :: LikeMatch("%" + k + "%", name) <==> Contains(name, k)) <==> forall c <- k :: !Wildcard(c)
  {
    if forall c <- k :: !Wildcard(c) {
      NothingToEscape(k);
      forall name ensures LikeMatch("%" + k + "%", name) <==> Contains(name, k) {
        LikeIsContains(k, name);
      }
    } else {
      hide LikeMatch, Wildcard;
      var name := Witness(k + "%");
      WitnessMatches(k + "%");
      LeadingPercent(k + "%", name);
      assert name[0..] == name;
      assert "%" + k + "%" == "%" + (k + "%");
      WitnessDiffers(k);
      if Contains(name, k) {
        NoRoom(name, k);
      }
      assert LikeMatch("%" + k + "%", name) && !Contains(name, k);
    }
  }

  lemma {:induction false} NothingToEscape(k: string)
    requires forall c <- k :: !Wildcard(c)
    ensures EscapeLikeKeyword(k) == k
  {
    hide EscapeLikeKeyword;
    EscapeLikeIsOnePass(k);
    if k != "" {
      EscapeLikeIsOnePass(k[1..]);
      NothingToEscape(k[1..]);
      assert k == [k[0]] + k[1..];
    }
  }
}
