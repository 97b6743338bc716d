/** What each accepted operation on the command rules of a selector does to it, told by the
    command table alone, and which operations are refused. */
module AclEffects {
  import opened Wrappers
  import opened Ascii
  import opened AclRuleText
  import opened AclRules

  /** The one command of a name, the one subcommand of a name, the flag of a category name. */
  ghost predicate Names(cat: Catalog, name: string, c: Cmd) {
    c in cat.cmds && c.name == name && forall d :: d in cat.cmds && d.name == name ==> d == c
  }

  ghost predicate NamesSub(c: Cmd, name: string, b: Sub) {
    b in c.subs && b.name == name && forall d :: d in c.subs && d.name == name ==> d == b
  }

  ghost predicate NamesCategory(cat: Catalog, name: string, flag: nat) {
    && (exists g :: g in cat.categories && g.name == name)
    && (forall g :: g in cat.categories && g.name == name ==> g.flag == flag)
  }

  ghost predicate IsSubOf(c: Cmd, i: nat) { exists b :: b in c.subs && b.id == i }

  ghost predicate IsSubIn(c: Cmd, flag: nat, i: nat) { exists b :: b in c.subs && flag in b.categories && b.id == i }

  /** Bit `i` belongs to a category: to a command of it or any of that command's subcommands, or
      to a subcommand that is itself in it. */
  ghost predicate InCategory(cat: Catalog, flag: nat, i: nat) {
    || (exists c :: c in cat.cmds && flag in c.categories && (c.id == i || IsSubOf(c, i)))
    || (exists c :: c in cat.cmds && IsSubIn(c, flag, i))
  }

  /** Entry `i` of the first arguments is emptied: the command or subcommand is itself in it. */
  ghost predicate ResetBy(cat: Catalog, flag: nat, i: nat) {
    || (exists c :: c in cat.cmds && flag in c.categories && c.id == i)
    || (exists c :: c in cat.cmds && IsSubIn(c, flag, i))
  }

  function Sign(allow: bool): (s: string) { if allow then "+" else "-" }

  // ---- all and nothing ----

  /** "allcommands" and "+@all", in any spelling and on any selector, leave every bit set, no
      first argument and no rule; "nocommands" and "-@all" leave no bit set. */
  lemma FlushEffect(cat: Catalog, s: Selector, word: string, on: bool)
    requires WellFormed(cat) && ValidSelector(s)
    requires if on then InEitherCase(word, "ALLCOMMANDS", "allcommands") || InEitherCase(word, "+@ALL", "+@all")
             else InEitherCase(word, "NOCOMMANDS", "nocommands") || InEitherCase(word, "-@ALL", "-@all")
    ensures Understood(cat, Lower(word))
    ensures var r := Step(cat, s, Lower(word));
            && (forall i :: 0 <= i < BITS ==> r.perms.bits[i] == on && r.perms.args[i] == {})
            && r.all == on && r.rules == []
  {
    hide Lower;
    hide InEitherCase;
    hide Parse;
    if on { AllWords(word); } else { NoWords(word); }
    FlushWord(cat, Lower(word));
  }

  lemma AllWords(word: string)
    requires InEitherCase(word, "ALLCOMMANDS", "allcommands") || InEitherCase(word, "+@ALL", "+@all")
    ensures Lower(word) == "allcommands" || Lower(word) == "+@all"
  {
    hide Lower;
    hide InEitherCase;
    EitherCaseExact(word, "ALLCOMMANDS", "allcommands");
    EitherCaseExact(word, "+@ALL", "+@all");
  }

  lemma NoWords(word: string)
    requires InEitherCase(word, "NOCOMMANDS", "nocommands") || InEitherCase(word, "-@ALL", "-@all")
    ensures Lower(word) == "nocommands" || Lower(word) == "-@all"
  {
    hide Lower;
    hide InEitherCase;
    EitherCaseExact(word, "NOCOMMANDS", "nocommands");
    EitherCaseExact(word, "-@ALL", "-@all");
  }

  lemma FlushWord(cat: Catalog, op: string)
    ensures op == "allcommands" || op == "+@all" ==> Understood(cat, op) && Parse(cat, op) == Ok(Flush(true))
    ensures op == "nocommands" || op == "-@all" ==> Understood(cat, op) && Parse(cat, op) == Ok(Flush(false))
  {
    hide ParseCategory;
    hide ParseEntry;
    hide ParseFirstArg;
  }

  // ---- categories ----

  lemma {:induction false} BitsOfCategory(cmds: seq<Cmd>, flag: nat, i: nat)
    ensures i in CategoryBits(cmds, flag) <==> InCategory(Catalog(cmds, []), flag, i)
    ensures i in CategoryResets(cmds, flag) <==> ResetBy(Catalog(cmds, []), flag, i)
  {
    if cmds != [] {
      var init, c := cmds[..|cmds| - 1], cmds[|cmds| - 1];
      BitsOfCategory(init, flag, i);
      assert cmds == init + [c];
      BitsOfOne(c, flag, i);
      assert forall d :: d in cmds <==> d in init || d == c;
    }
  }

  lemma BitsOfOne(c: Cmd, flag: nat, i: nat)
    ensures i in CategoryBitsOf(c, flag) <==> (flag in c.categories && (c.id == i || IsSubOf(c, i))) || IsSubIn(c, flag, i)
    ensures i in CategoryResetsOf(c, flag) <==> (flag in c.categories && c.id == i) || IsSubIn(c, flag, i)
  {
  }

  lemma SameTable(cat: Catalog, flag: nat, i: nat)
    ensures InCategory(cat, flag, i) <==> InCategory(Catalog(cat.cmds, []), flag, i)
    ensures ResetBy(cat, flag, i) <==> ResetBy(Catalog(cat.cmds, []), flag, i)
  {
  }

  /** Allowing or denying a category gives exactly its bits the value, empties the first arguments
      of exactly its own commands, and is refused only for a name that is no category. */
  lemma CategoryEffect(cat: Catalog, s: Selector, op: string, name: string, flag: nat, allow: bool)
    requires WellFormed(cat) && ValidSelector(s) && op == Sign(allow) + "@" + name && PlainText(op)
    requires NamesCategory(cat, name, flag)
    ensures Understood(cat, op)
    ensures var r := Step(cat, s, op).perms;
            forall i :: 0 <= i < BITS ==>
              && r.bits[i] == (if InCategory(cat, flag, i) then allow else s.perms.bits[i])
              && r.args[i] == (if ResetBy(cat, flag, i) then {} else s.perms.args[i])
    ensures Step(cat, s, op).all <==> s.all && (allow || forall i: nat :: !InCategory(cat, flag, i))
  {
    hide WellFormed;
    hide CategoryBits;
    hide CategoryResets;
    hide InCategory;
    hide ResetBy;
    CategoryParsed(cat, op, name, flag, allow);
    forall i: nat
      ensures i in CategoryBits(cat.cmds, flag) <==> InCategory(cat, flag, i)
      ensures i in CategoryResets(cat.cmds, flag) <==> ResetBy(cat, flag, i)
    {
      BitsOfCategory(cat.cmds, flag, i);
      SameTable(cat, flag, i);
    }
  }

  lemma CategoryParsed(cat: Catalog, op: string, name: string, flag: nat, allow: bool)
    requires WellFormed(cat) && op == Sign(allow) + "@" + name && NamesCategory(cat, name, flag)
    ensures Parse(cat, op) == Ok(Change("@" + name, allow, CategoryBits(cat.cmds, flag), CategoryResets(cat.cmds, flag)))
  {
    hide CategoryBits;
    hide CategoryResets;
    hide ParseEntry;
    hide ParseFirstArg;
    assert op[1..] == "@" + name && op[1..][1..] == name;
    assert name != "all" && name == op[2..];
    assert op[0] == '+' || op[0] == '-';
    assert "+@all"[2..] == "all" && "-@all"[2..] == "all";
    assert FindCategory(cat.categories, name) == Some(flag);
  }

  // ---- commands and subcommands ----

  lemma FoundCmd(cat: Catalog, name: string, c: Cmd)
    requires WellFormed(cat) && Names(cat, name, c)
    ensures FindCmd(cat.cmds, name) == Some(c) && IsName(name) && FirstBar(name) == |name| && Lookup(cat, name) == Some(Top(c))
  {
  }

  /** A rule on a command gives it and all its subcommands the value, empties its own first
      arguments, and changes nothing else. */
  lemma CommandEffect(cat: Catalog, s: Selector, op: string, name: string, c: Cmd, allow: bool)
    requires WellFormed(cat) && ValidSelector(s) && op == Sign(allow) + name && Names(cat, name, c)
    ensures Understood(cat, op)
    ensures var r := Step(cat, s, op);
            && (forall i :: 0 <= i < BITS ==>
                  && r.perms.bits[i] == (if i == c.id || IsSubOf(c, i) then allow else s.perms.bits[i])
                  && r.perms.args[i] == (if i == c.id then {} else s.perms.args[i]))
            && (r.all <==> s.all && allow)
  {
    hide Parse;
    hide Lookup;
    hide WellFormed;
    FoundCmd(cat, name, c);
    PlainEntry(cat, name, Top(c), allow);
    PlainSign(name, allow);
    assert c.id in EntryBits(Top(c));
  }

  lemma PlainSign(name: string, allow: bool)
    requires PlainText(name)
    ensures PlainText(Sign(allow) + name) && CommandOp(Sign(allow) + name)
  {
    var op := Sign(allow) + name;
    assert op[0] == '+' || op[0] == '-';
  }

  lemma FoundSub(cat: Catalog, c: Cmd, b: Sub)
    requires WellFormed(cat) && Names(cat, c.name, c) && c.container && NamesSub(c, b.name, b)
    ensures var name := c.name + "|" + b.name;
            && Lookup(cat, name) == Some(Child(c, b)) && PlainText(name) && HasBar(name) && name[0] != '@'
            && LastBar(name) == |c.name| && name[..|c.name|] == c.name && name[|c.name| + 1..] == b.name && b.name != ""
  {
    hide FindCmd;
    hide FindSub;
    var name := c.name + "|" + b.name;
    FoundCmd(cat, c.name, c);
    assert IsName(b.name);
    BarSplit(c.name, b.name);
    FirstBarAt(name, |c.name|);
    FoundSubIn(c.subs, b);
  }

  lemma FirstBarAt(s: string, k: nat)
    requires k < |s| && s[k] == '|' && forall i :: 0 <= i < k ==> s[i] != '|'
    ensures FirstBar(s) == k
  {
  }

  lemma FoundSubIn(subs: seq<Sub>, b: Sub)
    requires b in subs && forall d :: d in subs && d.name == b.name ==> d == b
    ensures FindSub(subs, b.name) == Some(b)
  {
  }

  /** A rule on a subcommand changes its bit and its first arguments, and nothing else. */
  lemma SubEffect(cat: Catalog, s: Selector, op: string, c: Cmd, b: Sub, allow: bool)
    requires WellFormed(cat) && ValidSelector(s) && op == Sign(allow) + (c.name + "|" + b.name)
    requires Names(cat, c.name, c) && c.container && NamesSub(c, b.name, b)
    ensures Understood(cat, op)
    ensures var r := Step(cat, s, op);
            && (forall i :: 0 <= i < BITS ==>
                  && r.perms.bits[i] == (if i == b.id then allow else s.perms.bits[i])
                  && r.perms.args[i] == (if i == b.id then {} else s.perms.args[i]))
            && (r.all <==> s.all && allow)
  {
    hide Parse;
    hide Lookup;
    hide WellFormed;
    var name := c.name + "|" + b.name;
    FoundSub(cat, c, b);
    PlainSign(name, allow);
    SubParsed(cat, c, b, allow);
  }

  lemma SubParsed(cat: Catalog, c: Cmd, b: Sub, allow: bool)
    requires WellFormed(cat) && Names(cat, c.name, c) && c.container && NamesSub(c, b.name, b)
    ensures var name := c.name + "|" + b.name;
            Parse(cat, Sign(allow) + name) == Ok(Change(name, allow, {b.id}, {b.id}))
  {
    hide Lookup;
    hide LastBar;
    hide ParseCategory;
    hide WellFormed;
    var name := c.name + "|" + b.name;
    FoundSub(cat, c, b);
    FoundCmd(cat, c.name, c);
    var op := Sign(allow) + name;
    assert op[1..] == name && op[1] == name[0];
    NoFlush(op, name);
  }

  lemma NoFlush(op: string, name: string)
    requires op != "" && op[1..] == name && name != "" && name[0] != '@' && (op[0] == '+' || op[0] == '-')
    ensures op != "allcommands" && op != "nocommands" && op != "+@all" && op != "-@all"
  {
  }

  /** A first argument of a command without subcommands is added to those of that command; no bit
      changes. */
  lemma FirstArgEffect(cat: Catalog, s: Selector, op: string, c: Cmd, arg: string)
    requires WellFormed(cat) && ValidSelector(s) && op == "+" + c.name + "|" + arg && PlainText(arg)
    requires Names(cat, c.name, c) && !c.container && arg != "" && !HasBar(arg)
    ensures Understood(cat, op)
    ensures var r := Step(cat, s, op);
            && r.perms.bits == s.perms.bits && r.all == s.all
            && forall i :: 0 <= i < BITS ==> r.perms.args[i] == if i == c.id then s.perms.args[i] + {arg} else s.perms.args[i]
  {
    hide Parse;
    hide Lookup;
    hide WellFormed;
    FoundCmd(cat, c.name, c);
    AnyFirstArgAccepted(cat, c, arg);
    assert op == Sign(true) + (c.name + "|" + arg);
    PlainSign(c.name + "|" + arg, true);
  }

  // ---- refusals ----

  predicate AlwaysOk(op: string) { op == "allcommands" || op == "nocommands" || op == "+@all" || op == "-@all" }

  /** Anything but the two words that starts with neither sign is a syntax error. */
  lemma NoSignRefused(cat: Catalog, op: string)
    requires !AlwaysOk(op) && (op == "" || (op[0] != '+' && op[0] != '-'))
    ensures Parse(cat, op) == Err(EINVAL)
  {
    hide ParseCategory;
    hide ParseEntry;
    hide ParseFirstArg;
  }

  lemma UnknownCategoryRefused(cat: Catalog, name: string, allow: bool)
    requires (forall g :: g in cat.categories ==> g.name != name) && name != "all"
    ensures Parse(cat, Sign(allow) + "@" + name) == Err(ENOENT)
  {
    hide ParseFirstArg;
    hide ParseEntry;
    hide CategoryBits;
    hide CategoryResets;
    var op := Sign(allow) + "@" + name;
    assert op[1..] == "@" + name && op[1..][1..] == name == op[2..];
    assert op[0] == '+' || op[0] == '-';
    assert "+@all"[2..] == "all" && "-@all"[2..] == "all";
    assert FindCategory(cat.categories, name) == None;
  }

  lemma UnknownCommandRefused(cat: Catalog, name: string, allow: bool)
    requires name != "" && name[0] != '@' && !HasBar(name) && forall c :: c in cat.cmds ==> c.name != name
    ensures Parse(cat, Sign(allow) + name) == Err(ENOENT)
  {
    hide ParseFirstArg;
    hide ParseCategory;
    var op := Sign(allow) + name;
    assert op[1..] == name && op[1] == name[0];
    NoFlush(op, name);
    assert FirstBar(name) == |name|;
    assert Lookup(cat, name) == None;
  }

  /** With a bar: an empty argument is a syntax error, and an unknown subcommand of a command that
      has some is unknown. */
  lemma BarRefused(cat: Catalog, c: Cmd, arg: string)
    requires WellFormed(cat) && Names(cat, c.name, c) && !HasBar(arg)
    ensures arg == "" ==> Parse(cat, "+" + (c.name + "|" + arg)) == Err(EINVAL)
    ensures arg != "" && c.container && (forall b :: b in c.subs ==> b.name != arg) ==>
              Parse(cat, "+" + (c.name + "|" + arg)) == Err(ENOENT)
  {
    hide Lookup;
    hide LastBar;
    hide Parse;
    hide WellFormed;
    var name := c.name + "|" + arg;
    FoundCmd(cat, c.name, c);
    BarSplit(c.name, arg);
    assert name[0] == c.name[0];
    PlusWithBar(cat, name);
    NoSuchSub(cat, c, arg);
  }

  /** A denial with a bar needs a known subcommand. */
  lemma BarDenialRefused(cat: Catalog, c: Cmd, arg: string)
    requires WellFormed(cat) && Names(cat, c.name, c) && !HasBar(arg)
    requires !c.container || forall b :: b in c.subs ==> b.name != arg
    ensures Parse(cat, "-" + (c.name + "|" + arg)) == Err(ENOENT)
  {
    hide Lookup;
    hide ParseFirstArg;
    hide ParseCategory;
    hide WellFormed;
    var name := c.name + "|" + arg;
    FoundCmd(cat, c.name, c);
    var op := "-" + name;
    assert op[1..] == name && op[1] == name[0] == c.name[0];
    NoFlush(op, name);
    NoSuchSub(cat, c, arg);
  }

  lemma NoSuchSub(cat: Catalog, c: Cmd, arg: string)
    requires WellFormed(cat) && Names(cat, c.name, c) && !HasBar(arg)
    ensures !c.container || (forall b :: b in c.subs ==> b.name != arg) ==> Lookup(cat, c.name + "|" + arg) == None
  {
    hide FindCmd;
    hide LastBar;
    hide WellFormed;
    FoundCmd(cat, c.name, c);
    BarSplit(c.name, arg);
    FirstBarAt(c.name + "|" + arg, |c.name|);
  }

  /** First arguments of subcommands are not supported. */
  lemma ChildRefused(cat: Catalog, c: Cmd, b: Sub, arg: string)
    requires WellFormed(cat) && Names(cat, c.name, c) && c.container && NamesSub(c, b.name, b) && !HasBar(arg)
    ensures Parse(cat, "+" + (c.name + "|" + b.name + "|" + arg)) == Err(ECHILD)
  {
    hide Lookup;
    hide Parse;
    hide WellFormed;
    hide LastBar;
    var head := c.name + "|" + b.name;
    FoundSub(cat, c, b);
    var name := head + "|" + arg;
    LastBarAt(name, |head|);
    assert name[..|head|] == head && name[0] == head[0];
    PlusWithBar(cat, name);
  }

  lemma LastBarAt(s: string, k: nat)
    requires k < |s| && s[k] == '|' && forall i :: k < i < |s| ==> s[i] != '|'
    ensures HasBar(s) && LastBar(s) == k
  {
  }

  // ---- the log ----

  /** A rule made obsolete by one on `name`: on the same name, or on a part of it after a bar. */
  ghost predicate Obsolete(t: string, name: string)
    requires |t| >= 1
  {
    t[1..] == name || exists part: string :: t[1..] == name + "|" + part
  }

  lemma SupersedesExact(t: string, name: string)
    requires |t| >= 1
    ensures Supersedes(name, t) <==> Obsolete(t, name)
  {
    var rest := t[1..];
    if |rest| > |name| && rest[..|name|] == name && rest[|name|] == '|' {
      assert rest == name + "|" + rest[|name| + 1..];
    }
  }

  /** The rules that stay, in their order. */
  ghost function Remaining(ts: seq<string>, name: string): (r: seq<string>)
    requires AreTokens(ts)
  {
    if ts == [] then []
    else
      var init, last := Remaining(ts[..|ts| - 1], name), ts[|ts| - 1];
      if Obsolete(last, name) then init else init + [last]
  }

  lemma {:induction false} PruneIsRemaining(ts: seq<string>, name: string)
    requires AreTokens(ts)
    ensures Prune(ts, name) == Remaining(ts, name)
  {
    hide Supersedes;
    hide Obsolete;
    if ts != [] {
      var init, last := ts[..|ts| - 1], ts[|ts| - 1];
      assert ts == init + [last];
      PruneIsRemaining(init, name);
      PruneAppend(init, [last], name);
      SupersedesExact(last, name);
      assert [last][1..] == [];
    }
  }

  /** Every operation but those on all commands drops exactly the rules it makes obsolete, keeps
      the others in order, and is logged last, in its own text. */
  lemma LogEffect(cat: Catalog, s: Selector, op: string)
    requires WellFormed(cat) && ValidSelector(s) && Understood(cat, op) && !AlwaysOk(op)
    ensures op != "" && Step(cat, s, op).rules == Remaining(s.rules, op[1..]) + [op]
  {
    hide Prune;
    hide WellFormed;
    hide Lookup;
    hide CategoryBits;
    hide CategoryResets;
    TokenOfParse(cat, op);
    NotFlush(cat, op);
    NameOfParse(cat, op);
    PruneIsRemaining(s.rules, op[1..]);
  }

  lemma NotFlush(cat: Catalog, op: string)
    requires !AlwaysOk(op) && Parse(cat, op).Ok?
    ensures !Parse(cat, op).action.Flush?
  {
    hide Lookup;
    hide CategoryBits;
    hide CategoryResets;
  }
}
