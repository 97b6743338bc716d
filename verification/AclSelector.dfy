/** The selector as the server holds it: a bitmap, per-command lists of first arguments, the
    shortcut flag and the rule text in a growable NUL terminated buffer, all edited in place.
    The 1024-bit bitmap is an array of Booleans rather than sixteen 64-bit words. */
module AclSelectors {
  import opened Wrappers
  import opened AclRuleText
  import opened AclRules
  import opened Ascii

  /** The first arguments recorded for command `id`, up to case. */
  function ArgSet(m: map<nat, seq<string>>, id: nat): (r: set<string>) {
    if id in m then set a | a in m[id] :: Lower(a) else {}
  }

  function ArgSets(m: map<nat, seq<string>>): (r: seq<set<string>>)
    ensures |r| == BITS && forall i :: 0 <= i < BITS ==> r[i] == ArgSet(m, i)
  {
    seq(BITS, i requires 0 <= i < BITS => ArgSet(m, i))
  }

  /** Every logged token is in lower case. */
  predicate LowerCased(ts: seq<string>) { forall i :: 0 <= i < |ts| ==> Lower(ts[i]) == ts[i] }

  ghost predicate AllUnderstood(cat: Catalog, ops: seq<string>) {
    forall i :: 0 <= i < |ops| ==> Understood(cat, ops[i])
  }

  class AclSelector {
    const allowed: array<bool>
    var firstargs: map<nat, seq<string>>
    var allCommands: bool
    var rules: array<char>
    var rulesLen: nat
    ghost var log: seq<string>

    ghost predicate Valid()
      reads this, allowed, rules
    {
      && allowed.Length == BITS
      && rulesLen < rules.Length && rules[rulesLen] == '\0'
      && AreTokens(log) && LowerCased(log) && rules[..rulesLen] == Join(log)
    }

    ghost function CurrentPerms(): (p: Perms)
      requires Valid()
      reads this, allowed, rules
      ensures Sized(p)
    {
      Perms(allowed[..], ArgSets(firstargs))
    }

    ghost function View(): (s: Selector)
      requires Valid()
      reads this, allowed, rules
      ensures ValidSelector(s)
    {
      Selector(CurrentPerms(), allCommands, log)
    }

    constructor ()
      ensures Valid() && fresh(allowed) && fresh(rules) && View() == FRESH
    {
      allowed := new bool[BITS](_ => false);
      firstargs := map[];
      allCommands := false;
      rules := new char[1](_ => '\0');
      rulesLen := 0;
      log := [];
      new;
      assert allowed[..] == Uniform(false).bits;
      assert ArgSets(firstargs) == Uniform(false).args;
    }

    /** Set one command bit; clearing a bit also gives up the shortcut flag. */
    method SetCommandBit(id: nat, value: bool)
      requires Valid()
      modifies allowed, this`allCommands
      ensures Valid()
      ensures id < BITS ==> allowed[..] == old(allowed[..])[id := value] && allCommands == (old(allCommands) && value)
      ensures id >= BITS ==> allowed[..] == old(allowed[..]) && allCommands == old(allCommands)
    {
      if id >= BITS { return; }
      allowed[id] := value;
      if !value { allCommands := false; }
    }

    method ResetFirstArgsForCommand(id: nat)
      requires Valid()
      modifies this`firstargs
      ensures Valid() && firstargs == old(firstargs) - {id}
    {
      firstargs := firstargs - {id};
    }

    /** Allow or block a command with all its subcommands. */
    method ChangePerm(e: Entry, allow: bool)
      requires Valid() && forall i :: i in EntryBits(e) ==> i < BITS
      modifies allowed, this`allCommands, this`firstargs
      ensures Valid()
      ensures CurrentPerms() == Overwrite(old(CurrentPerms()), allow, EntryBits(e), {EntryId(e)})
      ensures allCommands == (old(allCommands) && allow)
    {
      hide Join;
      ghost var was := CurrentPerms();
      assert EntryId(e) in EntryBits(e);
      SetCommandBit(EntryId(e), allow);
      ResetFirstArgsForCommand(EntryId(e));
      if e.Top? {
        for k := 0 to |e.cmd.subs|
          modifies allowed, this`allCommands
          invariant Valid() && allCommands == (old(allCommands) && allow)
          invariant forall i :: 0 <= i < BITS ==>
            allowed[i] == if i == e.cmd.id || i in SubIds(e.cmd.subs[..k]) then allow else was.bits[i]
        {
          assert e.cmd.subs[..k + 1] == e.cmd.subs[..k] + [e.cmd.subs[k]];
          assert e.cmd.subs[k].id in EntryBits(e);
          SetCommandBit(e.cmd.subs[k].id, allow);
        }
        assert e.cmd.subs[..|e.cmd.subs|] == e.cmd.subs;
      }
      ghost var want := Overwrite(was, allow, EntryBits(e), {EntryId(e)});
      assert allowed[..] == want.bits;
      assert ArgSets(firstargs) == want.args;
    }

    /** Apply a value to every command of a category, and to the category's subcommands. */
    method SetBitsForCategory(cmds: seq<Cmd>, flag: nat, allow: bool)
      requires Valid()
      requires forall c :: c in cmds ==> c.id < BITS && forall s :: s in c.subs ==> s.id < BITS
      modifies allowed, this`allCommands, this`firstargs
      ensures Valid()
      ensures CurrentPerms() == Overwrite(old(CurrentPerms()), allow, CategoryBits(cmds, flag), CategoryResets(cmds, flag))
      ensures allCommands == (old(allCommands) && (allow || CategoryBits(cmds, flag) == {}))
    {
      ghost var was := CurrentPerms();
      OverwriteNothing(was, allow);
      for k := 0 to |cmds|
        invariant Valid()
        invariant CurrentPerms() == Overwrite(was, allow, CategoryBits(cmds[..k], flag), CategoryResets(cmds[..k], flag))
        invariant allCommands == (old(allCommands) && (allow || CategoryBits(cmds[..k], flag) == {}))
      {
        assert cmds[..k + 1][..k] == cmds[..k];
        ghost var mid := CurrentPerms();
        SetBitsForCommand(cmds[k], flag, allow);
        OverwriteTwice(was, allow, CategoryBits(cmds[..k], flag), CategoryResets(cmds[..k], flag),
                       CategoryBitsOf(cmds[k], flag), CategoryResetsOf(cmds[k], flag));
      }
      assert cmds[..|cmds|] == cmds;
    }

    method SetBitsForCommand(c: Cmd, flag: nat, allow: bool)
      requires Valid() && c.id < BITS && forall s :: s in c.subs ==> s.id < BITS
      modifies allowed, this`allCommands, this`firstargs
      ensures Valid()
      ensures CurrentPerms() == Overwrite(old(CurrentPerms()), allow, CategoryBitsOf(c, flag), CategoryResetsOf(c, flag))
      ensures allCommands == (old(allCommands) && (allow || CategoryBitsOf(c, flag) == {}))
    {
      ghost var was := CurrentPerms();
      if flag in c.categories {
        ChangePerm(Top(c), allow);
        OverwriteTwice(was, allow, {c.id} + SubIds(c.subs), {c.id}, SubIdsIn(c.subs, flag), SubIdsIn(c.subs, flag));
        SetBitsForSubs(c, flag, allow);
        assert c.id in CategoryBitsOf(c, flag);
      } else {
        SetBitsForSubs(c, flag, allow);
        assert {} + SubIdsIn(c.subs, flag) == SubIdsIn(c.subs, flag);
      }
    }

    method SetBitsForSubs(c: Cmd, flag: nat, allow: bool)
      requires Valid() && forall s :: s in c.subs ==> s.id < BITS
      modifies allowed, this`allCommands, this`firstargs
      ensures Valid()
      ensures CurrentPerms() == Overwrite(old(CurrentPerms()), allow, SubIdsIn(c.subs, flag), SubIdsIn(c.subs, flag))
      ensures allCommands == (old(allCommands) && (allow || SubIdsIn(c.subs, flag) == {}))
    {
      hide Overwrite;
      hide SubIdsIn;
      hide Join;
      ghost var was := CurrentPerms();
      OverwriteNothing(was, allow);
      SubIdsInNone(flag);
      for k := 0 to |c.subs|
        invariant Valid()
        invariant CurrentPerms() == Overwrite(was, allow, SubIdsIn(c.subs[..k], flag), SubIdsIn(c.subs[..k], flag))
        invariant allCommands == (old(allCommands) && (allow || SubIdsIn(c.subs[..k], flag) == {}))
      {
        SubIdsInNext(c.subs, flag, k);
        if flag in c.subs[k].categories {
          ghost var done := SubIdsIn(c.subs[..k], flag);
          ChangePerm(Child(c, c.subs[k]), allow);
          OverwriteTwice(was, allow, done, done, {c.subs[k].id}, {c.subs[k].id});
        }
      }
      assert c.subs[..|c.subs|] == c.subs;
    }

    /** Record a first argument unless it is already there, ignoring case. */
    method AddAllowedFirstArg(id: nat, sub: string)
      requires Valid() && id < BITS
      modifies this`firstargs
      ensures Valid() && CurrentPerms() == AddArg(old(CurrentPerms()), id, Lower(sub))
    {
      ghost var was := CurrentPerms();
      var items := if id in firstargs then firstargs[id] else [];
      var present := false;
      for k := 0 to |items|
        invariant present <==> exists j :: 0 <= j < k && Lower(items[j]) == Lower(sub)
      {
        if Lower(items[k]) == Lower(sub) { present := true; }
      }
      if !present {
        firstargs := firstargs[id := items + [sub]];
        assert ArgSet(firstargs, id) == was.args[id] + {Lower(sub)};
      } else {
        assert Lower(sub) in ArgSet(firstargs, id);
        assert was.args[id] + {Lower(sub)} == was.args[id];
      }
      assert ArgSets(firstargs) == AddArg(was, id, Lower(sub)).args;
    }

    /** Append to the rule text, reallocating when it no longer fits. */
    method CatRules(text: string)
      requires rulesLen < rules.Length && rules[rulesLen] == '\0'
      modifies this`rules, this`rulesLen, rules
      ensures rulesLen < rules.Length && rules[rulesLen] == '\0'
      ensures rules == old(rules) || fresh(rules)
      ensures rules[..rulesLen] == old(rules[..rulesLen]) + text
    {
      var n := rulesLen + |text|;
      if n + 1 > rules.Length {
        var bigger := new char[2 * n + 1](_ => '\0');
        for i := 0 to rulesLen
          modifies bigger
          invariant forall j :: 0 <= j < i ==> bigger[j] == rules[j]
        {
          bigger[i] := rules[i];
        }
        rules := bigger;
      }
      assert rules[..rulesLen] == old(rules[..rulesLen]);
      WriteAt(text);
      rulesLen := n;
    }

    /** Copies a text and its terminator to the end of the buffer. */
    method WriteAt(text: string)
      requires rulesLen + |text| < rules.Length
      modifies rules
      ensures rules[..rulesLen + |text|] == old(rules[..rulesLen]) + text && rules[rulesLen + |text|] == '\0'
    {
      ghost var head := rules[..rulesLen];
      for i := 0 to |text|
        invariant rules[..rulesLen] == head
        invariant forall j :: rulesLen <= j < rulesLen + i ==> rules[j] == text[j - rulesLen]
      {
        rules[rulesLen + i] := text[i];
      }
      rules[rulesLen + |text|] := '\0';
      assert rules[..rulesLen + |text|] == head + text;
    }

    /** Prune what the new rule supersedes, then append it. */
    method UpdateCommandRules(name: string, allow: bool)
      requires Valid() && name != "" && PlainText(name) && Lower(name) == name
      modifies this`rules, this`rulesLen, this`log, rules
      ensures Valid() && (rules == old(rules) || fresh(rules))
      ensures log == Prune(old(log), name) + [(if allow then "+" else "-") + name]
    {
      hide Join;
      hide Prune;
      hide Lower;
      hide IsToken;
      rulesLen := RemoveCommandRule(rules, rulesLen, name, log);
      PruneKeepsCase(log, name);
      log := Prune(log, name);
      var token := (if allow then "+" else "-") + name;
      RuleToken(name, allow);
      AppendedText(log, token);
      if rulesLen > 0 { CatRules(" "); }
      CatRules(token);
      log := log + [token];
    }

    /** One operation on the command rules. */
    method SetSelector(cat: Catalog, op: string) returns (r: Outcome)
      requires Valid() && WellFormed(cat) && PlainText(op) && CommandOp(Lower(op))
      modifies this, allowed, rules
      ensures Valid() && (rules == old(rules) || fresh(rules))
      ensures r == Parse(cat, Lower(op))
      ensures r.Err? ==> View() == old(View())
      ensures r.Ok? ==> (r.action.Flush? || IsToken(Token(r.action))) && View() == Apply(old(View()), r.action)
    {
      hide Parse;
      hide Join;
      hide Lookup;
      hide CategoryBits;
      hide CategoryResets;
      hide Prune;
      var o := Lower(op);
      LowerIsPlain(op);
      r := Parse(cat, o);
      if r.Err? { return; }
      if r.action.Flush? {
        FlushAll(r.action.on);
        return;
      }
      ResolvedAction(cat, o);
      var name := o[1..];
      LowerSuffix(op, 1);
      LowerTwice(op[1..]);
      if o[1] == '@' {
        SetSelectorCategory(cat.cmds, name, FindCategory(cat.categories, name[1..]).value, r.action.allow);
      } else if r.action.Change? {
        SetSelectorEntry(Lookup(cat, name).value, name, r.action.allow);
      } else {
        // the argument is kept in the spelling it was given in
        var k := LastBar(name) + 2;
        LowerSuffix(op, k);
        SetSelectorFirstArg(r.action.id, name, op[k..]);
      }
    }

    method SetSelectorCategory(cmds: seq<Cmd>, name: string, flag: nat, allow: bool)
      requires Valid() && name != "" && PlainText(name) && Lower(name) == name
      requires forall c :: c in cmds ==> c.id < BITS && forall s :: s in c.subs ==> s.id < BITS
      modifies this, allowed, rules
      ensures Valid() && (rules == old(rules) || fresh(rules))
      ensures IsToken((if allow then "+" else "-") + name)
      ensures View() == Apply(old(View()), Change(name, allow, CategoryBits(cmds, flag), CategoryResets(cmds, flag)))
    {
      UpdateCommandRules(name, allow);
      SetBitsForCategory(cmds, flag, allow);
    }

    method SetSelectorEntry(e: Entry, name: string, allow: bool)
      requires Valid() && name != "" && PlainText(name) && Lower(name) == name && forall i :: i in EntryBits(e) ==> i < BITS
      modifies this, allowed, rules
      ensures Valid() && (rules == old(rules) || fresh(rules))
      ensures IsToken((if allow then "+" else "-") + name)
      ensures View() == Apply(old(View()), EntryChange(e, allow, name))
    {
      ChangePerm(e, allow);
      UpdateCommandRules(name, allow);
      assert EntryId(e) in EntryBits(e);
    }

    method SetSelectorFirstArg(id: nat, name: string, sub: string)
      requires Valid() && name != "" && PlainText(name) && Lower(name) == name && id < BITS
      modifies this, allowed, rules
      ensures Valid() && (rules == old(rules) || fresh(rules))
      ensures IsToken("+" + name)
      ensures View() == Apply(old(View()), AllowFirstArg(name, id, Lower(sub)))
    {
      AddAllowedFirstArg(id, sub);
      UpdateCommandRules(name, true);
    }

    method FlushAll(on: bool)
      requires Valid()
      modifies this, allowed, rules
      ensures Valid() && rules == old(rules)
      ensures View() == Selector(Uniform(on), on, [])
    {
      for i := 0 to BITS
        modifies allowed
        invariant Valid() && forall j :: 0 <= j < i ==> allowed[j] == on
      {
        allowed[i] := on;
      }
      allCommands := on;
      rules[0] := '\0';
      rulesLen := 0;
      log := [];
      firstargs := map[];
      assert allowed[..] == Uniform(on).bits;
      assert ArgSets(firstargs) == Uniform(on).args;
    }
  }

  lemma OverwriteNothing(p: Perms, allow: bool)
    requires Sized(p)
    ensures Overwrite(p, allow, {}, {}) == p
  {
    assert Overwrite(p, allow, {}, {}).bits == p.bits && Overwrite(p, allow, {}, {}).args == p.args;
  }

  /** Overwriting with the same value twice is overwriting the union once. */
  lemma OverwriteTwice(p: Perms, allow: bool, b1: set<nat>, r1: set<nat>, b2: set<nat>, r2: set<nat>)
    requires Sized(p)
    ensures Overwrite(Overwrite(p, allow, b1, r1), allow, b2, r2) == Overwrite(p, allow, b1 + b2, r1 + r2)
  {
    var x, y := Overwrite(Overwrite(p, allow, b1, r1), allow, b2, r2), Overwrite(p, allow, b1 + b2, r1 + r2);
    assert x.bits == y.bits && x.args == y.args;
  }

  lemma LowerIsPlain(s: string)
    requires PlainText(s)
    ensures PlainText(Lower(s))
  {
    forall i | 0 <= i < |s| ensures PlainChar(Lower(s)[i]) { assert PlainChar(s[i]); }
  }

  lemma LowerSuffix(s: string, k: nat)
    requires k <= |s|
    ensures Lower(s[k..]) == Lower(s)[k..]
  {
  }

  /** What an understood operation asks of the selector, in terms of the command table. */
  lemma ResolvedAction(cat: Catalog, op: string)
    requires WellFormed(cat) && PlainText(op) && Parse(cat, op).Ok? && !Parse(cat, op).action.Flush?
    ensures IsToken(op) && Token(Parse(cat, op).action) == op && PlainText(op[1..])
    ensures op[1] == '@' ==>
              var flag := FindCategory(cat.categories, op[1..][1..]);
              flag.Some? && Parse(cat, op).action.Change? && Parse(cat, op).action ==
                Change(op[1..], Parse(cat, op).action.allow, CategoryBits(cat.cmds, flag.value), CategoryResets(cat.cmds, flag.value))
    ensures op[1] != '@' && Parse(cat, op).action.Change? ==>
              && Lookup(cat, op[1..]).Some?
              && Parse(cat, op).action == EntryChange(Lookup(cat, op[1..]).value, Parse(cat, op).action.allow, op[1..])
              && forall i :: i in EntryBits(Lookup(cat, op[1..]).value) ==> i < BITS
    ensures Parse(cat, op).action.AllowFirstArg? ==>
              && op[1] != '@' && HasBar(op[1..]) && Parse(cat, op).action.id < BITS
              && Parse(cat, op).action == AllowFirstArg(op[1..], Parse(cat, op).action.id, op[LastBar(op[1..]) + 2..])
  {
    hide Lookup;
    hide CategoryBits;
    hide CategoryResets;
    hide FindCategory;
    TokenOfParse(cat, op);
    if op[1] != '@' {
      NamedAction(cat, op);
      ActionShape(cat, op);
      if Lookup(cat, op[1..]).Some? {
        LookupName(cat, op[1..]);
      } else {
        assert op[1..][LastBar(op[1..]) + 1..] == op[LastBar(op[1..]) + 2..];
      }
    }
  }

  lemma LowerTwice(s: string)
    ensures Lower(Lower(s)) == Lower(s)
  {
  }

  lemma RuleToken(name: string, allow: bool)
    requires name != "" && PlainText(name) && Lower(name) == name
    ensures var t := (if allow then "+" else "-") + name; IsToken(t) && Lower(t) == t
  {
  }

  /** How the text grows when a token is appended to the log. */
  lemma AppendedText(ts: seq<string>, token: string)
    requires AreTokens(ts)
    ensures Join(ts) == "" <==> ts == []
    ensures Join(ts + [token]) == Join(ts) + (if ts == [] then "" else " ") + token
  {
    if ts != [] {
      JoinAppend(ts, [token]);
      JoinHead(ts);
    }
  }

  lemma PruneKeepsCase(ts: seq<string>, name: string)
    requires AreTokens(ts) && LowerCased(ts)
    ensures LowerCased(Prune(ts, name))
  {
    var r := Prune(ts, name);
    forall i | 0 <= i < |r| ensures Lower(r[i]) == r[i] { assert r[i] in ts; }
  }

  lemma SubIdsInNone(flag: nat)
    ensures SubIdsIn([], flag) == {}
  {
  }

  lemma SubIdsInNext(subs: seq<Sub>, flag: nat, k: nat)
    requires k < |subs|
    ensures SubIdsIn(subs[..k + 1], flag)
         == SubIdsIn(subs[..k], flag) + if flag in subs[k].categories then {subs[k].id} else {}
  {
    assert subs[..k + 1] == subs[..k] + [subs[k]];
  }

  /** Performing a list of operations on a selector. */
  method PerformAll(cat: Catalog, s: AclSelector, ops: seq<string>)
    requires s.Valid() && WellFormed(cat) && AllUnderstood(cat, ops) && LowerCased(ops)
    modifies s, s.allowed, s.rules
    ensures s.Valid() && (s.rules == old(s.rules) || fresh(s.rules))
    ensures s.View() == Run(cat, old(s.View()), ops)
  {
    for i := 0 to |ops|
      invariant s.Valid() && (s.rules == old(s.rules) || fresh(s.rules))
      invariant s.View() == Run(cat, old(s.View()), ops[..i])
    {
      assert ops[..i + 1][..i] == ops[..i];
      assert Understood(cat, ops[i]);
      var r := s.SetSelector(cat, ops[i]);
    }
    assert ops[..|ops|] == ops;
  }

  /** The description of a selector built by understood operations: replays the log on a fake
      selector and compares bitmaps, as the guard before the panic does. */
  method DescribeCommandRules(cat: Catalog, s: AclSelector) returns (text: string, matches: bool)
    requires s.Valid() && WellFormed(cat) && Faithful(cat, s.View())
    ensures matches
    ensures text == (if s.allowed[FUTURE] then "+@all" else "-@all") + (if s.log == [] then "" else " " + Join(s.log))
  {
    hide Faithful;
    hide AreTokens;
    hide SplitArgs;
    hide Join;
    hide WellFormed;
    SplitJoin(s.log);
    var first := if s.allowed[FUTURE] then "+@all" else "-@all";
    var ops := [first] + SplitArgs(s.rules[..s.rulesLen]);
    AppendedText(s.log, "");
    var fake := Rebuild(cat, ops, s.View());
    text := if s.rulesLen > 0 then first + " " + s.rules[..s.rulesLen] else first;
    matches := fake.allowed[..] == s.allowed[..];
  }

  /** The fake selector that the description is replayed on. */
  method Rebuild(cat: Catalog, ops: seq<string>, ghost s: Selector) returns (fake: AclSelector)
    requires WellFormed(cat) && Faithful(cat, s) && LowerCased(s.rules) && ops == Description(s)
    ensures fresh(fake) && fresh(fake.allowed) && fresh(fake.rules) && fake.Valid()
    ensures fake.View().perms == s.perms && fake.View().rules == s.rules
  {
    fake := new AclSelector();
    DescriptionReady(cat, s);
    PerformAll(cat, fake, ops);
  }

  lemma DescriptionReady(cat: Catalog, s: Selector)
    requires WellFormed(cat) && Faithful(cat, s) && LowerCased(s.rules)
    ensures AllUnderstood(cat, Description(s)) && LowerCased(Description(s))
    ensures Run(cat, FRESH, Description(s)).perms == s.perms && Run(cat, FRESH, Description(s)).rules == s.rules
  {
    FaithfulRebuilds(cat, s);
    DescriptionCase(s);
  }

  lemma DescriptionCase(s: Selector)
    requires ValidSelector(s) && LowerCased(s.rules)
    ensures LowerCased(Description(s))
  {
    SplitJoin(s.rules);
    assert Lower("+@all") == "+@all" && Lower("-@all") == "-@all";
  }
}
