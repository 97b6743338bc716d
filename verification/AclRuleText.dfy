/** The textual rule log of an ACL selector (`command_rules`): a list of tokens
    such as "+get" or "-@write" kept in one NUL terminated, space separated buffer,
    and the in-place pruning that precedes every append. */
module AclRuleText {

  /** A rule token: a sign, then a non-empty name without blanks, quotes or NUL. */
  predicate PlainChar(c: char) {
    c != ' ' && c != '\t' && c != '\n' && c != '\r' && c != '\0' && c != '"' && c != '\''
  }

  predicate PlainText(s: string) {
    forall i :: 0 <= i < |s| ==> PlainChar(s[i])
  }

  predicate IsToken(t: string) {
    |t| >= 2 && (t[0] == '+' || t[0] == '-') && PlainText(t)
  }

  predicate AreTokens(ts: seq<string>) {
    forall i :: 0 <= i < |ts| ==> IsToken(ts[i])
  }

  /** Adding the rule `name` makes the retained `token` redundant: same name, or a
      `|` subrule of it. */
  predicate Supersedes(name: string, token: string)
    requires |token| >= 1
  {
    var rest := token[1..];
    rest == name || (|rest| > |name| && rest[..|name|] == name && rest[|name|] == '|')
  }

  function Prune(ts: seq<string>, name: string): (r: seq<string>)
    requires AreTokens(ts)
    ensures AreTokens(r)
    ensures forall t :: t in r <==> t in ts && !Supersedes(name, t)
  {
    if ts == [] then []
    else if Supersedes(name, ts[0]) then Prune(ts[1..], name)
    else [ts[0]] + Prune(ts[1..], name)
  }

  function Join(ts: seq<string>): (s: string) {
    if ts == [] then ""
    else if |ts| == 1 then ts[0]
    else ts[0] + " " + Join(ts[1..])
  }

  lemma {:induction false} PruneAppend(a: seq<string>, b: seq<string>, name: string)
    requires AreTokens(a) && AreTokens(b)
    ensures Prune(a + b, name) == Prune(a, name) + Prune(b, name)
  {
    if a == [] {
      assert a + b == b;
    } else {
      assert (a + b)[1..] == a[1..] + b;
      PruneAppend(a[1..], b, name);
    }
  }

  lemma {:induction false} JoinAppend(a: seq<string>, b: seq<string>)
    requires a != [] && b != []
    ensures Join(a + b) == Join(a) + " " + Join(b)
  {
    if |a| == 1 {
      assert (a + b)[1..] == b;
    } else {
      assert (a + b)[1..] == a[1..] + b;
      JoinAppend(a[1..], b);
    }
  }

  lemma {:induction false} JoinHasNoNul(ts: seq<string>)
    requires AreTokens(ts)
    ensures forall i :: 0 <= i < |Join(ts)| ==> Join(ts)[i] != '\0'
  {
    if |ts| > 1 { JoinHasNoNul(ts[1..]); }
  }

  /** Where the first token of a joined text ends: at a blank, or at the end when
      it is the only one. */
  lemma JoinHead(ts: seq<string>)
    requires AreTokens(ts) && ts != []
    ensures |ts[0]| <= |Join(ts)| && Join(ts)[..|ts[0]|] == ts[0]
    ensures |ts| == 1 ==> Join(ts) == ts[0]
    ensures |ts| > 1 ==> |ts[0]| < |Join(ts)| && Join(ts)[|ts[0]|] == ' '
                         && Join(ts)[|ts[0]| + 1..] == Join(ts[1..])
  {
  }

  /* ---------------------------------------------------------------- splitting */

  predicate IsBlank(c: char) { c == ' ' || c == '\t' || c == '\n' || c == '\r' }

  /** Length of the leading token: up to the first blank. */
  function TokenLength(s: string): (n: nat)
    ensures n <= |s|
    ensures forall i :: 0 <= i < n ==> !IsBlank(s[i])
    ensures n < |s| ==> IsBlank(s[n])
  {
    if s == "" || IsBlank(s[0]) then 0 else 1 + TokenLength(s[1..])
  }

  /** Splitting a quote-free line on blanks, as the loader of the rule log does. */
  function SplitArgs(s: string): (ts: seq<string>)
    decreases |s|
  {
    if s == "" then []
    else if IsBlank(s[0]) then SplitArgs(s[1..])
    else [s[..TokenLength(s)]] + SplitArgs(s[TokenLength(s)..])
  }

  lemma TokenLengthIs(s: string, n: nat)
    requires n <= |s|
    requires forall i :: 0 <= i < n ==> !IsBlank(s[i])
    requires n < |s| ==> IsBlank(s[n])
    ensures TokenLength(s) == n
  {
  }

  /** The log survives the trip through text. */
  lemma {:induction false} SplitJoin(ts: seq<string>)
    requires AreTokens(ts)
    ensures SplitArgs(Join(ts)) == ts
  {
    if ts != [] {
      var s := Join(ts);
      JoinHead(ts);
      var n := |ts[0]|;
      assert forall i :: 0 <= i < n ==> s[i] == ts[0][i];
      TokenLengthIs(s, n);
      if |ts| == 1 {
        assert s[n..] == "";
      } else {
        SplitJoin(ts[1..]);
        assert s[n..][1..] == Join(ts[1..]);
      }
    }
  }

  /* ---------------------------------------------------------- in-place surgery */

  /** strchr(a + from, c), bounded by the terminating NUL at `end`. */
  method FindChar(a: array<char>, from: nat, end: nat, c: char) returns (k: nat)
    requires from <= end < a.Length
    ensures from <= k <= end
    ensures forall i :: from <= i < k ==> a[..end][i] != c
    ensures k < end ==> a[..end][k] == c
  {
    k := from;
    while k < end && a[k] != c
      invariant from <= k <= end
      invariant forall i :: from <= i < k ==> a[i] != c
    {
      k := k + 1;
    }
  }

  /** memmove(a + dst, a + src, n) towards the front of the buffer. */
  method MoveDown(a: array<char>, dst: nat, src: nat, n: nat)
    requires dst <= src && src + n <= a.Length
    modifies a
    ensures forall i :: dst <= i < dst + n ==> a[i] == old(a[..])[i - dst + src]
    ensures forall i :: dst + n <= i < a.Length ==> a[i] == old(a[..])[i]
    ensures forall i :: 0 <= i < dst ==> a[i] == old(a[..])[i]
  {
    ghost var was := a[..];
    var k := 0;
    while k < n
      invariant 0 <= k <= n
      invariant forall i :: dst <= i < dst + k ==> a[i] == was[i - dst + src]
      invariant forall i :: dst + k <= i < a.Length ==> a[i] == was[i]
      invariant forall i :: 0 <= i < dst ==> a[i] == was[i]
    {
      a[dst + k] := a[src + k];
      k := k + 1;
    }
  }

  /** memcmp of the common prefix followed by the length test of the pruning loop. */
  method SupersedesAt(a: array<char>, from: nat, end: nat, name: string) returns (b: bool)
    requires from < end <= a.Length
    ensures b == Supersedes(name, a[from..end])
  {
    var oldLen := end - (from + 1);
    var common := if oldLen < |name| then oldLen else |name|;
    ghost var tail := a[from..end][1..];
    assert tail == a[from + 1..end];
    var k := 0;
    while k < common && a[from + 1 + k] == name[k]
      invariant 0 <= k <= common
      invariant tail[..k] == name[..k]
    {
      assert tail[..k + 1] == tail[..k] + [tail[k]];
      assert name[..k + 1] == name[..k] + [name[k]];
      k := k + 1;
    }
    if k < common {
      assert tail[k] != name[k];
      b := false;
      assert |tail| > |name| ==> tail[..|name|][k] == tail[k];
    } else {
      b := oldLen == |name| || (oldLen > |name| && a[from + 1 + |name|] == '|');
      assert tail[..common] == name[..common];
      assert tail == tail[..|tail|] && name == name[..|name|];
    }
  }

  /** The text `s` spells the rules `kept` followed by `todo`; the cursor is at the
      first character of `todo`, or at the end. */
  ghost predicate Spells(s: string, cursor: nat, kept: seq<string>, todo: seq<string>) {
    && AreTokens(kept) && AreTokens(todo) && cursor <= |s|
    && (todo == [] ==> cursor == |s| && s == Join(kept))
    && (todo != [] ==> cursor < |s| && s[cursor..] == Join(todo))
    && (todo != [] && kept == [] ==> cursor == 0)
    && (todo != [] && kept != [] ==> cursor >= 1 && s[..cursor] == Join(kept) + " ")
  }

  lemma SpellsFacts(s: string, cursor: nat, kept: seq<string>, todo: seq<string>)
    requires Spells(s, cursor, kept, todo)
    ensures AreTokens(kept) && AreTokens(todo) && cursor <= |s| && (cursor < |s| <==> todo != [])
    ensures todo == [] ==> s == Join(kept)
  {
  }

  lemma SpellsStart(rules: seq<string>, name: string)
    requires AreTokens(rules)
    ensures Spells(Join(rules), 0, [], rules) && Prune([], name) == []
  {
    if rules != [] { JoinHead(rules); }
  }

  /** Where the rule at the cursor ends. */
  lemma RuleAtCursor(s: string, cursor: nat, kept: seq<string>, todo: seq<string>)
    requires Spells(s, cursor, kept, todo) && todo != []
    ensures cursor + |todo[0]| <= |s| && s[cursor..cursor + |todo[0]|] == todo[0]
    ensures forall i :: cursor <= i < cursor + |todo[0]| ==> s[i] != ' '
    ensures if |todo| == 1 then cursor + |todo[0]| == |s| else cursor + |todo[0]| < |s| && s[cursor + |todo[0]|] == ' '
  {
    JoinHead(todo);
    var end := cursor + |todo[0]|;
    var rest := s[cursor..];
    assert s[cursor..end] == rest[..|todo[0]|];
    forall i | cursor <= i < end ensures s[i] != ' ' {
      assert s[i] == s[cursor..end][i - cursor];
      assert PlainChar(todo[0][i - cursor]);
    }
    if |todo| > 1 { assert s[end] == rest[|todo[0]|]; }
  }

  /** Cutting the rule at the cursor, with its separator, out of the text. */
  lemma CutRule(s: string, cursor: nat, kept: seq<string>, todo: seq<string>, from: nat, to: nat)
    requires Spells(s, cursor, kept, todo) && todo != []
    requires |todo| == 1 ==> to == |s| && from == (if cursor == 0 then 0 else cursor - 1)
    requires |todo| > 1 ==> to == cursor + |todo[0]| + 1 && from == cursor
    ensures from < to <= |s|
    ensures Spells(s[..from] + s[to..], from, kept, todo[1..])
  {
    JoinHead(todo);
    if |todo| > 1 {
      assert s[to..] == s[cursor..][|todo[0]| + 1..];
      JoinHead(todo[1..]);
      assert (s[..from] + s[to..])[from..] == s[to..];
      assert (s[..from] + s[to..])[..from] == s[..from];
    } else if kept != [] {
      assert s[..from] == s[..cursor][..|Join(kept)|];
      assert s[..from] + s[to..] == Join(kept);
    }
  }

  /** The text up to the end of the rule at the cursor spells that rule as well. */
  lemma JoinThroughCursor(s: string, cursor: nat, kept: seq<string>, todo: seq<string>)
    requires Spells(s, cursor, kept, todo) && todo != []
    ensures cursor + |todo[0]| <= |s| && s[..cursor + |todo[0]|] == Join(kept + [todo[0]])
  {
    RuleAtCursor(s, cursor, kept, todo);
    var end := cursor + |todo[0]|;
    assert s[..end] == s[..cursor] + s[cursor..end];
    if kept != [] {
      JoinAppend(kept, [todo[0]]);
    } else {
      assert kept + [todo[0]] == [todo[0]];
    }
  }

  /** Moving the cursor past a rule that stays. */
  lemma KeepRule(s: string, cursor: nat, kept: seq<string>, todo: seq<string>, next: nat)
    requires Spells(s, cursor, kept, todo) && todo != []
    requires |todo| == 1 ==> next == |s|
    requires |todo| > 1 ==> next == cursor + |todo[0]| + 1
    ensures cursor < next <= |s|
    ensures Spells(s, next, kept + [todo[0]], todo[1..])
  {
    hide Join;
    JoinThroughCursor(s, cursor, kept, todo);
    RuleAtCursor(s, cursor, kept, todo);
    var end := cursor + |todo[0]|;
    if |todo| > 1 {
      JoinHead(todo);
      JoinHead(todo[1..]);
      assert s[next..] == s[cursor..][|todo[0]| + 1..];
      assert s[..next] == s[..end] + [s[end]];
    } else {
      assert s[..end] == s;
    }
  }

  /** Closing the gap [from, to) of a NUL terminated text of length `len`. */
  method CloseGap(a: array<char>, len: nat, from: nat, to: nat) returns (n: nat)
    requires len < a.Length && a[len] == '\0' && from <= to <= len
    modifies a
    ensures n == len - (to - from) && a[n] == '\0'
    ensures a[..n] == old(a[..len][..from] + a[..len][to..])
  {
    ghost var s := a[..len];
    MoveDown(a, from, to, len + 1 - to);
    n := len - (to - from);
    ghost var t := s[..from] + s[to..];
    forall i | 0 <= i < n ensures a[..n][i] == t[i] {
      if from <= i { assert t[i] == s[to..][i - from] == s[i - from + to]; }
    }
    assert a[..n] == t;
  }

  /** The extent of the rule at the cursor, and the gap its removal would leave. */
  method LocateRule(a: array<char>, len: nat, cursor: nat, ghost kept: seq<string>, ghost todo: seq<string>)
    returns (ruleEnd: nat, copyPosition: nat, copyEnd: nat)
    requires len < a.Length && todo != []
    requires Spells(a[..len], cursor, kept, todo)
    ensures cursor < ruleEnd <= len && a[cursor..ruleEnd] == todo[0]
    ensures |todo| == 1 ==> copyEnd == len && copyPosition == (if cursor == 0 then 0 else cursor - 1)
    ensures |todo| > 1 ==> copyEnd == cursor + |todo[0]| + 1 && copyPosition == cursor
  {
    hide Spells;
    hide Join;
    ghost var s := a[..len];
    SpellsFacts(s, cursor, kept, todo);
    RuleAtCursor(s, cursor, kept, todo);
    copyPosition := cursor;
    ruleEnd := FindChar(a, cursor + 1, len, ' ');
    assert ruleEnd == cursor + |todo[0]|;
    if ruleEnd == len && copyPosition != 0 {
      copyPosition := copyPosition - 1;
    }
    copyEnd := if ruleEnd < len then ruleEnd + 1 else ruleEnd;
    assert a[cursor..ruleEnd] == s[cursor..ruleEnd];
  }

  /** One round of the removal loop: the rule at the cursor is skipped or cut out. */
  method PruneOne(a: array<char>, len: nat, name: string, cursor: nat, ghost kept: seq<string>, ghost todo: seq<string>)
    returns (n: nat, next: nat)
    requires len < a.Length && a[len] == '\0' && todo != []
    requires Spells(a[..len], cursor, kept, todo)
    modifies a
    ensures n <= len && a[n] == '\0'
    ensures Spells(a[..n], next, kept + Prune([todo[0]], name), todo[1..])
  {
    hide Spells;
    hide Join;
    hide Prune;
    hide Supersedes;
    SpellsFacts(a[..len], cursor, kept, todo);
    var ruleEnd, copyPosition, copyEnd := LocateRule(a, len, cursor, kept, todo);
    var hit := SupersedesAt(a, cursor, ruleEnd, name);
    PruneSingle(todo[0], name);
    if hit {
      CutRule(a[..len], cursor, kept, todo, copyPosition, copyEnd);
      n := CloseGap(a, len, copyPosition, copyEnd);
      next := copyPosition;
      assert kept + [] == kept;
    } else {
      KeepRule(a[..len], cursor, kept, todo, copyEnd);
      n, next := len, copyEnd;
    }
  }

  lemma PruneSingle(t: string, name: string)
    requires IsToken(t)
    ensures Prune([t], name) == if Supersedes(name, t) then [] else [t]
  {
  }

  /** The removal loop over the raw buffer: `len` is the string length on entry, the
      buffer is NUL terminated, and `rules` is the list it spells. */
  method RemoveCommandRule(a: array<char>, len: nat, name: string, ghost rules: seq<string>) returns (n: nat)
    requires len < a.Length && a[len] == '\0'
    requires AreTokens(rules) && a[..len] == Join(rules)
    modifies a
    ensures n <= len && a[n] == '\0'
    ensures a[..n] == Join(Prune(rules, name))
  {
    hide Spells;
    hide Join;
    hide Prune;
    n := len;
    var existing: nat := 0;
    ghost var kept: seq<string> := [];
    ghost var count := 0;
    SpellsStart(rules, name);
    assert rules[0..] == rules && rules[..0] == [];
    SpellsFacts(a[..n], existing, kept, rules);
    while existing < n
      invariant n <= len && a[n] == '\0'
      invariant 0 <= count <= |rules| && kept == Prune(rules[..count], name)
      invariant Spells(a[..n], existing, kept, rules[count..])
      invariant existing <= n && (existing < n <==> count < |rules|)
      decreases |rules| - count
    {
      n, existing := PruneOne(a, n, name, existing, kept, rules[count..]);
      PruneAppend(rules[..count], [rules[count]], name);
      assert rules[..count + 1] == rules[..count] + [rules[count]];
      assert rules[count..][1..] == rules[count + 1..];
      kept := kept + Prune([rules[count]], name);
      count := count + 1;
      SpellsFacts(a[..n], existing, kept, rules[count..]);
    }
    SpellsFacts(a[..n], existing, kept, rules[count..]);
    assert rules[..count] == rules;
  }
}
