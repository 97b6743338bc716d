/** What the command rules of an ACL selector mean: parsing an operation, its effect on
    the bitmap and the first-argument lists, and why the pruned rule log always rebuilds
    the selector it was recorded from. */
module AclRules {
  import opened Wrappers
  import opened AclRuleText

  const BITS: nat := 1024   // USER_COMMAND_BITS_COUNT
  const FUTURE: nat := 1023 // reserved bit: set only by +@all

  // a category mask is the set of its bits; a category flag is one bit
  datatype Sub = Sub(name: string, id: nat, categories: set<nat>)
  datatype Cmd = Cmd(name: string, id: nat, categories: set<nat>, container: bool, subs: seq<Sub>)
  datatype Category = Category(name: string, flag: nat)

  /** The original command table and the category names, both fixed. */
  datatype Catalog = Catalog(cmds: seq<Cmd>, categories: seq<Category>)

  predicate HasBar(s: string) { '|' in s }

  predicate IsName(s: string) {
    s != "" && s[0] != '@' && PlainText(s) && !HasBar(s)
  }

  /** Every command has its own identifier below the reserved one; a subcommand never
      shares it with a top-level command; names are plain words (lower case, since every
      comparison ignores case and the model lowers an operation before reading it). */
  predicate WellFormed(cat: Catalog) {
    && (forall c :: c in cat.cmds ==> IsName(c.name) && c.id < FUTURE && (!c.container ==> c.subs == []))
    && (forall c, s :: c in cat.cmds && s in c.subs ==> IsName(s.name) && s.id < FUTURE)
    && (forall c, d, s :: c in cat.cmds && d in cat.cmds && s in d.subs ==> c.id != s.id)
    && (forall g :: g in cat.categories ==> !HasBar(g.name) && g.name != "all")
  }

  /* ------------------------------------------------------------------ lookups */

  function FindCmd(cmds: seq<Cmd>, name: string): (r: Option<Cmd>)
    ensures r.Some? ==> r.value in cmds && r.value.name == name
    ensures r.None? ==> forall c :: c in cmds ==> c.name != name
  {
    if cmds == [] then None
    else if cmds[0].name == name then Some(cmds[0])
    else FindCmd(cmds[1..], name)
  }

  function FindSub(subs: seq<Sub>, name: string): (r: Option<Sub>)
    ensures r.Some? ==> r.value in subs && r.value.name == name
    ensures r.None? ==> forall s :: s in subs ==> s.name != name
  {
    if subs == [] then None
    else if subs[0].name == name then Some(subs[0])
    else FindSub(subs[1..], name)
  }

  function FindCategory(cats: seq<Category>, name: string): (r: Option<nat>)
    ensures r.Some? ==> exists g :: g in cats && g.name == name && g.flag == r.value
    ensures r.None? ==> forall g :: g in cats ==> g.name != name
  {
    if cats == [] then None
    else if cats[0].name == name then Some(cats[0].flag)
    else FindCategory(cats[1..], name)
  }

  function FirstBar(s: string): (k: nat)
    ensures k <= |s| && (k < |s| ==> s[k] == '|') && forall i :: 0 <= i < k ==> s[i] != '|'
  {
    if s == "" || s[0] == '|' then 0 else 1 + FirstBar(s[1..])
  }

  function LastBar(s: string): (k: nat)
    requires HasBar(s)
    ensures k < |s| && s[k] == '|' && forall i :: k < i < |s| ==> s[i] != '|'
  {
    if s[|s| - 1] == '|' then |s| - 1
    else assert '|' in s[..|s| - 1]; LastBar(s[..|s| - 1])
  }

  /** A found command: a top-level one, or a subcommand with its parent. */
  datatype Entry = Top(cmd: Cmd) | Child(parent: Cmd, sub: Sub)

  function FullName(e: Entry): (r: string) {
    match e
    case Top(c) => c.name
    case Child(c, s) => c.name + "|" + s.name
  }

  function LookupSub(cmd: Option<Cmd>, name: string): (r: Option<Entry>) {
    if cmd.None? || !cmd.value.container then None
    else
      var s := FindSub(cmd.value.subs, name);
      if s.None? then None else Some(Child(cmd.value, s.value))
  }

  function Lookup(cat: Catalog, s: string): (r: Option<Entry>) {
    var k := FirstBar(s);
    if k == |s| then
      var c := FindCmd(cat.cmds, s);
      if c.None? then None else Some(Top(c.value))
    else if HasBar(s[k + 1..]) then None
    else LookupSub(FindCmd(cat.cmds, s[..k]), s[k + 1..])
  }

  /* ------------------------------------------------------------------ actions */

  /** The effect of a successful operation on the permissions, with the name under
      which it is logged. */
  datatype Action =
    | Flush(on: bool)
    | Change(name: string, allow: bool, bits: set<nat>, resets: set<nat>)
    | AllowFirstArg(name: string, id: nat, arg: string)

  datatype Error = ENOENT | ECHILD | EINVAL
  datatype Outcome = Ok(action: Action) | Err(error: Error)

  function SubIds(subs: seq<Sub>): (r: set<nat>) { set s | s in subs :: s.id }

  function SubIdsIn(subs: seq<Sub>, flag: nat): (r: set<nat>) { set s | s in subs && flag in s.categories :: s.id }

  function EntryBits(e: Entry): (r: set<nat>) {
    match e
    case Top(c) => {c.id} + SubIds(c.subs)
    case Child(_, s) => {s.id}
  }

  function EntryId(e: Entry): (r: nat) {
    match e
    case Top(c) => c.id
    case Child(_, s) => s.id
  }

  function CategoryBits(cmds: seq<Cmd>, flag: nat): (r: set<nat>) {
    if cmds == [] then {}
    else CategoryBits(cmds[..|cmds| - 1], flag) + CategoryBitsOf(cmds[|cmds| - 1], flag)
  }

  function CategoryBitsOf(c: Cmd, flag: nat): (r: set<nat>) {
    (if flag in c.categories then {c.id} + SubIds(c.subs) else {}) + SubIdsIn(c.subs, flag)
  }

  function CategoryResets(cmds: seq<Cmd>, flag: nat): (r: set<nat>) {
    if cmds == [] then {}
    else CategoryResets(cmds[..|cmds| - 1], flag) + CategoryResetsOf(cmds[|cmds| - 1], flag)
  }

  function CategoryResetsOf(c: Cmd, flag: nat): (r: set<nat>) {
    (if flag in c.categories then {c.id} else {}) + SubIdsIn(c.subs, flag)
  }

  function EntryChange(e: Entry, allow: bool, name: string): (r: Action) {
    Change(name, allow, EntryBits(e), {EntryId(e)})
  }

  /** Operations that edit command permissions; key and channel patterns are separate. */
  predicate CommandOp(op: string) {
    && (op != "" ==> op[0] != '~' && op[0] != '%' && op[0] != '&')
    && op !in {"allkeys", "resetkeys", "allchannels", "resetchannels"}
  }

  function ParseFirstArg(cat: Catalog, name: string): (r: Outcome)
    requires HasBar(name)
  {
    var k := LastBar(name);
    var e := Lookup(cat, name[..k]);
    if e.None? then Err(ENOENT)
    else if e.value.Child? then Err(ECHILD)
    else if name[k + 1..] == "" then Err(EINVAL)
    else if e.value.cmd.container then
      var sub := Lookup(cat, name);
      if sub.None? then Err(ENOENT) else Ok(EntryChange(sub.value, true, name))
    else Ok(AllowFirstArg(name, e.value.cmd.id, name[k + 1..]))
  }

  function ParseEntry(cat: Catalog, name: string, allow: bool): (r: Outcome) {
    var e := Lookup(cat, name);
    if e.None? then Err(ENOENT) else Ok(EntryChange(e.value, allow, FullName(e.value)))
  }

  function ParseCategory(cat: Catalog, name: string, allow: bool): (r: Outcome)
    requires |name| >= 1
  {
    var flag := FindCategory(cat.categories, name[1..]);
    if flag.None? then Err(ENOENT)
    else Ok(Change(name, allow, CategoryBits(cat.cmds, flag.value), CategoryResets(cat.cmds, flag.value)))
  }

  /** The branches of the operation parser, on text already in lower case. */
  function Parse(cat: Catalog, op: string): (r: Outcome) {
    if op == "allcommands" || op == "+@all" then Ok(Flush(true))
    else if op == "nocommands" || op == "-@all" then Ok(Flush(false))
    else if op == "" || (op[0] != '+' && op[0] != '-') then Err(EINVAL)
    else if |op| > 1 && op[1] == '@' then ParseCategory(cat, op[1..], op[0] == '+')
    else if op[0] == '-' || !HasBar(op[1..]) then ParseEntry(cat, op[1..], op[0] == '+')
    else ParseFirstArg(cat, op[1..])
  }

  /* ------------------------------------------------------- selectors as values */

  /** Bitmap and, per command identifier, the set of allowed first arguments up to case. */
  datatype Perms = Perms(bits: seq<bool>, args: seq<set<string>>)

  predicate Sized(p: Perms) { |p.bits| == BITS && |p.args| == BITS }

  function Uniform(on: bool): (p: Perms)
    ensures Sized(p)
  {
    Perms(seq(BITS, i => on), seq(BITS, i => {}))
  }

  /** Force `bits` to `allow` and empty the first arguments of `resets`. */
  function Overwrite(p: Perms, allow: bool, bits: set<nat>, resets: set<nat>): (r: Perms)
    requires Sized(p)
    ensures Sized(r)
    ensures forall i :: 0 <= i < BITS ==> r.bits[i] == if i in bits then allow else p.bits[i]
    ensures forall i :: 0 <= i < BITS ==> r.args[i] == if i in resets then {} else p.args[i]
  {
    Perms(seq(BITS, i requires 0 <= i < BITS => if i in bits then allow else p.bits[i]),
          seq(BITS, i requires 0 <= i < BITS => if i in resets then {} else p.args[i]))
  }

  function AddArg(p: Perms, id: nat, arg: string): (r: Perms)
    requires Sized(p)
    ensures Sized(r) && r.bits == p.bits
    ensures forall i :: 0 <= i < BITS ==> r.args[i] == if i == id then p.args[i] + {arg} else p.args[i]
  {
    Perms(p.bits, seq(BITS, i requires 0 <= i < BITS => if i == id then p.args[i] + {arg} else p.args[i]))
  }

  function Act(p: Perms, a: Action): (r: Perms)
    requires Sized(p)
    ensures Sized(r)
  {
    match a
    case Flush(on) => Uniform(on)
    case Change(_, allow, bits, resets) => Overwrite(p, allow, bits, resets)
    case AllowFirstArg(_, id, arg) => AddArg(p, id, arg)
  }

  datatype Selector = Selector(perms: Perms, all: bool, rules: seq<string>)

  const FRESH: Selector := Selector(Uniform(false), false, [])

  function Token(a: Action): (t: string)
    requires !a.Flush?
  {
    (if a.Change? && !a.allow then "-" else "+") + a.name
  }

  predicate ValidSelector(s: Selector) { Sized(s.perms) && AreTokens(s.rules) }

  /** One successful operation: permissions change, superseded rules go, the new one is
      appended. */
  function Apply(s: Selector, a: Action): (r: Selector)
    requires ValidSelector(s) && (a.Flush? || IsToken(Token(a)))
    ensures ValidSelector(r)
  {
    match a
    case Flush(on) => Selector(Uniform(on), on, [])
    case Change(name, allow, bits, _) =>
      Selector(Act(s.perms, a), s.all && (allow || bits == {}), Prune(s.rules, name) + [Token(a)])
    case AllowFirstArg(name, _, _) =>
      Selector(Act(s.perms, a), s.all, Prune(s.rules, name) + [Token(a)])
  }

  /** An operation given as text, in lower case and free of blanks and quotes. */
  predicate Understood(cat: Catalog, op: string) {
    PlainText(op) && CommandOp(op) && Parse(cat, op).Ok?
  }

  function Step(cat: Catalog, s: Selector, op: string): (r: Selector)
    requires WellFormed(cat) && ValidSelector(s) && Understood(cat, op)
    ensures ValidSelector(r)
  {
    TokenOfParse(cat, op);
    Apply(s, Parse(cat, op).action)
  }

  function Run(cat: Catalog, s: Selector, ops: seq<string>): (r: Selector)
    requires WellFormed(cat) && ValidSelector(s) && forall i :: 0 <= i < |ops| ==> Understood(cat, ops[i])
    ensures ValidSelector(r)
  {
    if ops == [] then s
    else Step(cat, Run(cat, s, ops[..|ops| - 1]), ops[|ops| - 1])
  }

  /* ------------------------------------------------ operations and their tokens */

  /** A looked-up name is the full name of what was found. */
  lemma LookupName(cat: Catalog, s: string)
    requires WellFormed(cat) && Lookup(cat, s).Some?
    ensures s != "" && FullName(Lookup(cat, s).value) == s
    ensures Lookup(cat, s).value.Top? <==> !HasBar(s)
    ensures Lookup(cat, s).value.Top? ==> Lookup(cat, s).value.cmd in cat.cmds
    ensures Lookup(cat, s).value.Child? ==>
              var Child(c, b) := Lookup(cat, s).value; c in cat.cmds && c.container && b in c.subs
  {
    var k := FirstBar(s);
    if k < |s| { assert s == s[..k] + "|" + s[k + 1..]; }
  }

  /** Every understood operation but +@all and -@all is logged under its own name. */
  lemma NameOfParse(cat: Catalog, op: string)
    requires WellFormed(cat) && Parse(cat, op).Ok? && !Parse(cat, op).action.Flush?
    ensures |op| >= 2 && (op[0] == '+' || op[0] == '-')
    ensures Parse(cat, op).action.name == op[1..]
    ensures (Parse(cat, op).action.Change? && !Parse(cat, op).action.allow) <==> op[0] == '-'
  {
    hide Lookup;
    hide CategoryBits;
    hide CategoryResets;
    hide WellFormed;
    hide FindCategory;
    hide LastBar;
    var name := op[1..];
    if !(|op| > 1 && op[1] == '@') && Lookup(cat, name).Some? {
      LookupName(cat, name);
    }
  }

  /** So its token is its own text. */
  lemma TokenOfParse(cat: Catalog, op: string)
    requires WellFormed(cat) && PlainText(op) && Parse(cat, op).Ok?
    ensures Parse(cat, op).action.Flush? || (Token(Parse(cat, op).action) == op && IsToken(op))
  {
    hide Parse;
    hide WellFormed;
    if !Parse(cat, op).action.Flush? {
      NameOfParse(cat, op);
      assert op == [op[0]] + op[1..];
    }
  }

  /* --------------------------------------------------------------- absorption */

  /** Subcommands never carry first-argument lists. */
  ghost predicate SubsBare(cat: Catalog, p: Perms)
    requires WellFormed(cat) && Sized(p)
  {
    forall c, s :: c in cat.cmds && s in c.subs ==> p.args[s.id] == {}
  }

  lemma {:induction false} CategoryBelowFuture(cat: Catalog, cmds: seq<Cmd>, flag: nat)
    requires WellFormed(cat) && forall c :: c in cmds ==> c in cat.cmds
    ensures FUTURE !in CategoryBits(cmds, flag)
  {
    if cmds != [] {
      CategoryBelowFuture(cat, cmds[..|cmds| - 1], flag);
      assert cmds[|cmds| - 1] in cat.cmds;
    }
  }

  /** An understood operation other than +@all and -@all leaves the reserved bit alone,
      and gives first arguments only to commands without subcommands. */
  lemma ActionShape(cat: Catalog, op: string)
    requires WellFormed(cat) && Parse(cat, op).Ok?
    ensures Parse(cat, op).action.Change? ==> FUTURE !in Parse(cat, op).action.bits
    ensures Parse(cat, op).action.AllowFirstArg? ==>
              exists c :: c in cat.cmds && !c.container && c.id == Parse(cat, op).action.id
  {
    hide Lookup;
    hide CategoryBits;
    hide CategoryResets;
    hide LastBar;
    var a := Parse(cat, op).action;
    if !a.Flush? {
      var name := op[1..];
      if name != "" && name[0] == '@' {
        CategoryBelowFuture(cat, cat.cmds, FindCategory(cat.categories, name[1..]).value);
      } else if a.AllowFirstArg? {
        LookupName(cat, name[..LastBar(name)]);
      } else {
        LookupName(cat, name);
      }
    }
  }

  lemma ActKeeps(cat: Catalog, p: Perms, op: string)
    requires WellFormed(cat) && Sized(p) && SubsBare(cat, p)
    requires Parse(cat, op).Ok? && !Parse(cat, op).action.Flush?
    ensures SubsBare(cat, Act(p, Parse(cat, op).action))
    ensures Act(p, Parse(cat, op).action).bits[FUTURE] == p.bits[FUTURE]
  {
    ActionShape(cat, op);
  }

  /** On every reachable permission state, `a` overrides everything `b` does. */
  ghost predicate Absorbs(cat: Catalog, a: Action, b: Action)
    requires WellFormed(cat)
  {
    forall p :: Sized(p) && SubsBare(cat, p) ==> Act(Act(p, b), a) == Act(p, a)
  }

  lemma ActTwice(p: Perms, a: Action, b: Action)
    requires Sized(p)
    requires (a.Change? && b.Change? && a.bits == b.bits && a.resets == b.resets)
          || (a.AllowFirstArg? && b.AllowFirstArg? && a.id == b.id && a.arg == b.arg)
    ensures Act(Act(p, b), a) == Act(p, a)
  {
    assert Act(Act(p, b), a).bits == Act(p, a).bits;
    assert Act(Act(p, b), a).args == Act(p, a).args;
  }

  /** `a` allows the text after the last bar of `name` as a first argument of the plain
      command before it. */
  predicate IsFirstArg(cat: Catalog, name: string, a: Action)
    requires HasBar(name)
  {
    var k := LastBar(name);
    var e := Lookup(cat, name[..k]);
    e.Some? && e.value.Top? && !e.value.cmd.container && a == AllowFirstArg(name, e.value.cmd.id, name[k + 1..])
  }

  /** What a rule on a command, subcommand or first argument resolves to: the entry of
      that name if there is one, otherwise a first argument of the command before the bar. */
  lemma NamedAction(cat: Catalog, op: string)
    requires WellFormed(cat) && Parse(cat, op).Ok? && !Parse(cat, op).action.Flush?
    requires |op| >= 2 && op[1] != '@'
    ensures Lookup(cat, op[1..]).Some? ==>
              Parse(cat, op).action == EntryChange(Lookup(cat, op[1..]).value, op[0] == '+', op[1..])
    ensures Lookup(cat, op[1..]).None? ==>
              HasBar(op[1..]) && IsFirstArg(cat, op[1..], Parse(cat, op).action)
  {
    var name := op[1..];
    if Lookup(cat, name).Some? {
      LookupName(cat, name);
      if HasBar(name) { OneBar(cat, name); }
    }
  }

  /** The name of a subcommand has a single bar, with its container in front of it. */
  lemma OneBar(cat: Catalog, name: string)
    requires WellFormed(cat) && HasBar(name) && Lookup(cat, name).Some?
    ensures FirstBar(name) == LastBar(name)
    ensures Lookup(cat, name).value.Child?
    ensures var c := Lookup(cat, name).value.parent; c.container && Lookup(cat, name[..LastBar(name)]) == Some(Top(c))
    ensures name[LastBar(name) + 1..] != ""
  {
    LookupName(cat, name);
    var j := FirstBar(name);
    assert !HasBar(name[..j]);
    assert FirstBar(name[..j]) == |name[..j]|;
  }

  /** Two operations logged under the same name touch the same permissions. */
  lemma SameNameAbsorbs(cat: Catalog, x: string, y: string)
    requires WellFormed(cat)
    requires Parse(cat, x).Ok? && !Parse(cat, x).action.Flush?
    requires Parse(cat, y).Ok? && !Parse(cat, y).action.Flush?
    requires |x| >= 2 && |y| >= 2 && x[1..] == y[1..]
    ensures Absorbs(cat, Parse(cat, x).action, Parse(cat, y).action)
  {
    assert x[1] == x[1..][0] == y[1..][0] == y[1];
    var a, b := Parse(cat, x).action, Parse(cat, y).action;
    if x[1] != '@' {
      NamedAction(cat, x);
      NamedAction(cat, y);
    }
    forall p | Sized(p) && SubsBare(cat, p) ensures Act(Act(p, b), a) == Act(p, a) {
      ActTwice(p, a, b);
    }
  }

  /** The command in front of the last bar of a rule's name is what the rule restricts. */
  lemma RuleParent(cat: Catalog, op: string) returns (c: Cmd)
    requires WellFormed(cat) && Parse(cat, op).Ok? && !Parse(cat, op).action.Flush?
    requires |op| >= 2 && op[1] != '@' && HasBar(op[1..])
    ensures c in cat.cmds && Lookup(cat, op[1..][..LastBar(op[1..])]) == Some(Top(c))
    ensures var b := Parse(cat, op).action;
            (b.AllowFirstArg? && b.id == c.id)
            || (b.Change? && exists s :: s in c.subs && b.bits == {s.id} && b.resets == {s.id})
  {
    var m := op[1..];
    NamedAction(cat, op);
    if Lookup(cat, m).Some? {
      OneBar(cat, m);
      LookupName(cat, m);
      c := Lookup(cat, m).value.parent;
    } else {
      LookupName(cat, m[..LastBar(m)]);
      c := Lookup(cat, m[..LastBar(m)]).value.cmd;
    }
  }

  /** A rule on a whole command overrides every rule on one of its subcommands or first
      arguments. */
  lemma SubRuleAbsorbed(cat: Catalog, x: string, y: string)
    requires WellFormed(cat)
    requires Parse(cat, x).Ok? && !Parse(cat, x).action.Flush?
    requires Parse(cat, y).Ok? && !Parse(cat, y).action.Flush?
    requires 2 <= |x| < |y| && y[1..|x|] == x[1..] && y[|x|] == '|'
    ensures Absorbs(cat, Parse(cat, x).action, Parse(cat, y).action)
  {
    hide CategoryBits;
    hide CategoryResets;
    hide Absorbs;
    hide FindCmd;
    hide FindSub;
    var a, b := Parse(cat, x).action, Parse(cat, y).action;
    var n, m := x[1..], y[1..];
    assert m[|n|] == '|' && m[..|n|] == n && y[1] == m[0] == n[0] == x[1];
    if x[1] == '@' {
      assert false;
    }
    var c := RuleParent(cat, y);
    LookupName(cat, m[..LastBar(m)]);
    assert LastBar(m) == |n| by {
      assert |n| <= LastBar(m);
      assert !HasBar(m[..LastBar(m)]);
    }
    NamedAction(cat, x);
    CommandAbsorbs(cat, c, a, b);
  }

  lemma CommandAbsorbs(cat: Catalog, c: Cmd, a: Action, b: Action)
    requires WellFormed(cat) && c in cat.cmds
    requires a.Change? && a.bits == {c.id} + SubIds(c.subs) && a.resets == {c.id}
    requires (b.AllowFirstArg? && b.id == c.id)
          || (b.Change? && exists s :: s in c.subs && b.bits == {s.id} && b.resets == {s.id})
    ensures Absorbs(cat, a, b)
  {
    hide Act;
    forall p | Sized(p) && SubsBare(cat, p) ensures Act(Act(p, b), a) == Act(p, a) {
      if b.Change? {
        var s :| s in c.subs && b.bits == {s.id} && b.resets == {s.id};
        SubHasNoArgs(cat, c, s, p);
        ChangeOverrides(p, a, b);
      } else {
        ChangeDropsArg(p, a, b);
      }
    }
  }

  lemma SubHasNoArgs(cat: Catalog, c: Cmd, s: Sub, p: Perms)
    requires WellFormed(cat) && c in cat.cmds && s in c.subs && Sized(p) && SubsBare(cat, p)
    ensures s.id in SubIds(c.subs) && s.id < BITS && p.args[s.id] == {}
  {
  }

  /** A change that resets a command forgets a first argument given to it just before. */
  lemma ChangeDropsArg(p: Perms, a: Action, b: Action)
    requires Sized(p) && a.Change? && b.AllowFirstArg? && b.id in a.resets && b.id in a.bits
    ensures Act(Act(p, b), a) == Act(p, a)
  {
    assert Act(Act(p, b), a).args == Act(p, a).args;
    assert Act(Act(p, b), a).bits == Act(p, a).bits;
  }

  lemma ChangeOverrides(p: Perms, a: Action, b: Action)
    requires Sized(p) && a.Change? && b.Change? && b.bits <= a.bits
    requires forall i :: i in b.resets && i < BITS ==> i in a.resets || p.args[i] == {}
    ensures Act(Act(p, b), a) == Act(p, a)
  {
    assert Act(Act(p, b), a).args == Act(p, a).args;
    assert Act(Act(p, b), a).bits == Act(p, a).bits;
  }

  /* ----------------------------------------------------------- the pruned log */

  /** A token as the log holds it: it reads back as an action other than a flush. */
  predicate Logged(cat: Catalog, t: string) {
    IsToken(t) && Parse(cat, t).Ok? && !Parse(cat, t).action.Flush?
  }

  predicate AllLogged(cat: Catalog, ts: seq<string>) {
    forall i :: 0 <= i < |ts| ==> Logged(cat, ts[i])
  }

  /** The permissions after performing the logged rules, oldest first. */
  function Perform(cat: Catalog, base: Perms, ts: seq<string>): (p: Perms)
    requires Sized(base) && AllLogged(cat, ts)
    ensures Sized(p)
  {
    if ts == [] then base
    else Act(Perform(cat, base, ts[..|ts| - 1]), Parse(cat, ts[|ts| - 1]).action)
  }

  /** No rule is superseded by a later one. */
  predicate NormalForm(ts: seq<string>)
    requires AreTokens(ts)
  {
    forall i, j :: 0 <= i < j < |ts| ==> !Supersedes(ts[j][1..], ts[i])
  }

  lemma SupersededIsAbsorbed(cat: Catalog, x: string, y: string)
    requires WellFormed(cat) && Logged(cat, x) && Logged(cat, y) && Supersedes(x[1..], y)
    ensures Absorbs(cat, Parse(cat, x).action, Parse(cat, y).action)
  {
    if y[1..] == x[1..] {
      SameNameAbsorbs(cat, x, y);
    } else {
      assert y[1..|x|] == y[1..][..|x| - 1];
      SubRuleAbsorbed(cat, x, y);
    }
  }

  /** States that `a` cannot tell apart stay so under any further action. */
  lemma ActCongruent(p: Perms, q: Perms, a: Action, x: Action)
    requires Sized(p) && Sized(q) && !a.Flush? && !x.Flush? && Act(p, a) == Act(q, a)
    ensures Act(Act(p, x), a) == Act(Act(q, x), a)
  {
    forall i | 0 <= i < BITS ensures Act(Act(p, x), a).bits[i] == Act(Act(q, x), a).bits[i] {
      assert Act(p, a).bits[i] == Act(q, a).bits[i];
    }
    forall i | 0 <= i < BITS ensures Act(Act(p, x), a).args[i] == Act(Act(q, x), a).args[i] {
      assert Act(p, a).args[i] == Act(q, a).args[i];
    }
    assert Act(Act(p, x), a).bits == Act(Act(q, x), a).bits;
    assert Act(Act(p, x), a).args == Act(Act(q, x), a).args;
  }

  lemma {:induction false} PerformKeeps(cat: Catalog, base: Perms, ts: seq<string>)
    requires WellFormed(cat) && Sized(base) && SubsBare(cat, base) && AllLogged(cat, ts)
    ensures SubsBare(cat, Perform(cat, base, ts))
    ensures Perform(cat, base, ts).bits[FUTURE] == base.bits[FUTURE]
  {
    if ts != [] {
      PerformKeeps(cat, base, ts[..|ts| - 1]);
      ActKeeps(cat, Perform(cat, base, ts[..|ts| - 1]), ts[|ts| - 1]);
    }
  }

  lemma PrunedLogged(cat: Catalog, ts: seq<string>, name: string)
    requires AreTokens(ts) && AllLogged(cat, ts)
    ensures AllLogged(cat, Prune(ts, name))
  {
    var r := Prune(ts, name);
    forall i | 0 <= i < |r| ensures Logged(cat, r[i]) { assert r[i] in ts; }
  }

  /** Dropping the rules that `op` supersedes makes no difference once `op` is performed. */
  lemma {:induction false} PruningIsInvisible(cat: Catalog, base: Perms, ts: seq<string>, op: string)
    requires WellFormed(cat) && Sized(base) && SubsBare(cat, base)
    requires AreTokens(ts) && AllLogged(cat, ts) && Logged(cat, op)
    ensures AllLogged(cat, Prune(ts, op[1..]))
    ensures Act(Perform(cat, base, Prune(ts, op[1..])), Parse(cat, op).action)
         == Act(Perform(cat, base, ts), Parse(cat, op).action)
  {
    hide Parse;
    hide Act;
    hide Supersedes;
    var name, a := op[1..], Parse(cat, op).action;
    PrunedLogged(cat, ts, name);
    if ts != [] {
      var init, x := ts[..|ts| - 1], ts[|ts| - 1];
      PruningIsInvisible(cat, base, init, op);
      assert ts == init + [x];
      PruneAppend(init, [x], name);
      PruneSingle(x, name);
      var kept := Prune(init, name);
      var p, q := Perform(cat, base, kept), Perform(cat, base, init);
      if Supersedes(name, x) {
        assert Prune(ts, name) == kept;
        PerformKeeps(cat, base, init);
        SupersededIsAbsorbed(cat, op, x);
      } else {
        assert Prune(ts, name)[..|kept|] == kept;
        ActCongruent(p, q, a, Parse(cat, x).action);
      }
    }
  }

  lemma {:induction false} PruneKeepsNormalForm(ts: seq<string>, name: string)
    requires AreTokens(ts) && NormalForm(ts)
    ensures NormalForm(Prune(ts, name))
  {
    if ts != [] {
      PruneKeepsNormalForm(ts[1..], name);
      var r := Prune(ts[1..], name);
      forall j | 0 <= j < |r| ensures !Supersedes(r[j][1..], ts[0]) {
        assert r[j] in ts[1..];
        var k :| 0 <= k < |ts[1..]| && ts[1..][k] == r[j];
        assert ts[k + 1] == r[j];
      }
    }
  }

  /** What every selector built by operations satisfies: its log is in normal form and
      performs, from +@all or -@all as the reserved bit says, to its own permissions. */
  ghost predicate Faithful(cat: Catalog, s: Selector)
    requires WellFormed(cat)
  {
    && ValidSelector(s) && AllLogged(cat, s.rules) && NormalForm(s.rules)
    && s.perms == Perform(cat, Uniform(s.perms.bits[FUTURE]), s.rules)
    && (s.all ==> s.perms.bits == Uniform(true).bits)
  }

  /** A logged operation as one step of the selector. */
  lemma LoggedStep(cat: Catalog, s: Selector, op: string)
    requires WellFormed(cat) && ValidSelector(s) && Logged(cat, op)
    ensures Understood(cat, op)
    ensures Step(cat, s, op).perms == Act(s.perms, Parse(cat, op).action)
    ensures Step(cat, s, op).rules == Prune(s.rules, op[1..]) + [op]
    ensures Step(cat, s, op).all <==> s.all && !Denies(cat, op)
  {
    TokenOfParse(cat, op);
    assert Parse(cat, op).action.name == op[1..];
  }

  /** The rule clears at least one bit. */
  predicate Denies(cat: Catalog, op: string)
    requires Logged(cat, op)
  {
    var a := Parse(cat, op).action;
    a.Change? && !a.allow && a.bits != {}
  }

  lemma AppendedIsNormal(cat: Catalog, ts: seq<string>, op: string)
    requires AreTokens(ts) && AllLogged(cat, ts) && NormalForm(ts) && Logged(cat, op)
    ensures AllLogged(cat, Prune(ts, op[1..]) + [op])
    ensures NormalForm(Prune(ts, op[1..]) + [op])
  {
    PruneKeepsNormalForm(ts, op[1..]);
    PrunedLogged(cat, ts, op[1..]);
    var kept := Prune(ts, op[1..]);
    forall i | 0 <= i < |kept| ensures !Supersedes(op[1..], kept[i]) { assert kept[i] in kept; }
  }

  lemma AppendedPerforms(cat: Catalog, base: Perms, ts: seq<string>, op: string)
    requires WellFormed(cat) && Sized(base) && SubsBare(cat, base)
    requires AreTokens(ts) && AllLogged(cat, ts) && Logged(cat, op)
    ensures AllLogged(cat, Prune(ts, op[1..]) + [op])
    ensures Perform(cat, base, Prune(ts, op[1..]) + [op]) == Act(Perform(cat, base, ts), Parse(cat, op).action)
  {
    PruningIsInvisible(cat, base, ts, op);
    var kept := Prune(ts, op[1..]);
    assert (kept + [op])[..|kept|] == kept;
  }

  lemma AllowKeepsAllSet(cat: Catalog, p: Perms, op: string)
    requires Logged(cat, op) && Sized(p) && p.bits == Uniform(true).bits && !Denies(cat, op)
    ensures Act(p, Parse(cat, op).action).bits == Uniform(true).bits
  {
    assert forall i :: 0 <= i < BITS ==> Uniform(true).bits[i];
  }

  lemma StepIsFaithful(cat: Catalog, s: Selector, op: string)
    requires WellFormed(cat) && Faithful(cat, s) && Understood(cat, op)
    ensures Faithful(cat, Step(cat, s, op))
  {
    TokenOfParse(cat, op);
    if Parse(cat, op).action.Flush? {
      FlushIsFaithful(cat, Parse(cat, op).action.on);
    } else {
      LoggedStepIsFaithful(cat, s, op);
    }
  }

  lemma FlushIsFaithful(cat: Catalog, on: bool)
    requires WellFormed(cat)
    ensures Faithful(cat, Selector(Uniform(on), on, []))
  {
  }

  lemma LoggedStepIsFaithful(cat: Catalog, s: Selector, op: string)
    requires WellFormed(cat) && Faithful(cat, s) && Logged(cat, op)
    ensures Understood(cat, op) && Faithful(cat, Step(cat, s, op))
  {
    LoggedStep(cat, s, op);
    var base := Uniform(s.perms.bits[FUTURE]);
    AppendedIsNormal(cat, s.rules, op);
    AppendedPerforms(cat, base, s.rules, op);
    PerformKeeps(cat, base, s.rules);
    ActKeeps(cat, s.perms, op);
    if s.all && !Denies(cat, op) { AllowKeepsAllSet(cat, s.perms, op); }
  }

  lemma {:induction false} RunIsFaithful(cat: Catalog, ops: seq<string>)
    requires WellFormed(cat) && forall i :: 0 <= i < |ops| ==> Understood(cat, ops[i])
    ensures Faithful(cat, Run(cat, FRESH, ops))
  {
    if ops != [] {
      RunIsFaithful(cat, ops[..|ops| - 1]);
      StepIsFaithful(cat, Run(cat, FRESH, ops[..|ops| - 1]), ops[|ops| - 1]);
    }
  }

  lemma LoggedUnderstood(cat: Catalog, ts: seq<string>)
    requires AllLogged(cat, ts)
    ensures forall i :: 0 <= i < |ts| ==> Understood(cat, ts[i])
  {
    forall i | 0 <= i < |ts| ensures Understood(cat, ts[i]) { assert Logged(cat, ts[i]); }
  }

  lemma TokenHasName(t: string)
    requires IsToken(t)
    ensures |t| >= 2
  {
  }

  lemma NothingPerformed(cat: Catalog, base: Perms)
    requires WellFormed(cat) && Sized(base)
    ensures Perform(cat, base, []) == base
  {
  }

  lemma PerformLast(cat: Catalog, base: Perms, ts: seq<string>)
    requires WellFormed(cat) && Sized(base) && ts != [] && AllLogged(cat, ts)
    ensures AllLogged(cat, ts[..|ts| - 1])
    ensures Perform(cat, base, ts) == Act(Perform(cat, base, ts[..|ts| - 1]), Parse(cat, ts[|ts| - 1]).action)
  {
    hide Parse;
    hide Act;
  }

  /** Replaying a normal form prunes nothing and performs exactly the log. */
  lemma {:induction false} ReplayOfNormalForm(cat: Catalog, s: Selector, ts: seq<string>)
    requires WellFormed(cat) && ValidSelector(s) && s.rules == [] && AreTokens(ts)
    requires AllLogged(cat, ts) && NormalForm(ts)
    ensures forall i :: 0 <= i < |ts| ==> Understood(cat, ts[i])
    ensures Run(cat, s, ts).rules == ts
    ensures Run(cat, s, ts).perms == Perform(cat, s.perms, ts)
  {
    hide Parse;
    hide Act;
    hide Prune;
    hide Supersedes;
    hide IsToken;
    hide Step;
    hide Perform;
    LoggedUnderstood(cat, ts);
    NothingPerformed(cat, s.perms);
    if ts != [] {
      var init, op := ts[..|ts| - 1], ts[|ts| - 1];
      assert IsToken(op);
      TokenHasName(op);
      PerformLast(cat, s.perms, ts);
      ReplayOfNormalForm(cat, s, init);
      LoggedStep(cat, Run(cat, s, init), op);
      PruneNothing(init, op[1..]);
      assert ts == init + [op];
    }
  }

  lemma {:induction false} PruneNothing(ts: seq<string>, name: string)
    requires AreTokens(ts) && forall i :: 0 <= i < |ts| ==> !Supersedes(name, ts[i])
    ensures Prune(ts, name) == ts
  {
    if ts != [] { PruneNothing(ts[1..], name); }
  }

  /** The operation list that rebuilds a selector: +@all or -@all, then its log as text. */
  function Description(s: Selector): (ops: seq<string>)
    requires ValidSelector(s)
  {
    [if s.perms.bits[FUTURE] then "+@all" else "-@all"] + SplitArgs(Join(s.rules))
  }

  /** After any run of understood operations on a fresh selector, its description is
      understood and rebuilds the same bitmap, the same first arguments and the same log:
      the bitmap comparison that guards the description never fails. */
  lemma DescriptionRebuilds(cat: Catalog, ops: seq<string>)
    requires WellFormed(cat) && forall i :: 0 <= i < |ops| ==> Understood(cat, ops[i])
    ensures var s := Run(cat, FRESH, ops);
            && (forall i :: 0 <= i < |Description(s)| ==> Understood(cat, Description(s)[i]))
            && Run(cat, FRESH, Description(s)).perms == s.perms
            && Run(cat, FRESH, Description(s)).rules == s.rules
  {
    RunIsFaithful(cat, ops);
    FaithfulRebuilds(cat, Run(cat, FRESH, ops));
  }

  lemma FaithfulRebuilds(cat: Catalog, s: Selector)
    requires WellFormed(cat) && Faithful(cat, s)
    ensures forall i :: 0 <= i < |Description(s)| ==> Understood(cat, Description(s)[i])
    ensures Run(cat, FRESH, Description(s)).perms == s.perms
    ensures Run(cat, FRESH, Description(s)).rules == s.rules
  {
    SplitJoin(s.rules);
    var on := s.perms.bits[FUTURE];
    var first := if on then "+@all" else "-@all";
    OpeningFlush(cat, on);
    ReplayOfNormalForm(cat, Run(cat, FRESH, [first]), s.rules);
    RunAppend(cat, FRESH, [first], s.rules);
  }

  lemma OpeningFlush(cat: Catalog, on: bool)
    requires WellFormed(cat)
    ensures var first := if on then "+@all" else "-@all";
            Understood(cat, first) && Run(cat, FRESH, [first]) == Selector(Uniform(on), on, [])
  {
    var first := if on then "+@all" else "-@all";
    assert Understood(cat, first);
    assert [first][..0] == [];
    assert Run(cat, FRESH, []) == FRESH;
  }

  lemma {:induction false} RunAppend(cat: Catalog, s: Selector, a: seq<string>, b: seq<string>)
    requires WellFormed(cat) && ValidSelector(s)
    requires forall i :: 0 <= i < |a| ==> Understood(cat, a[i])
    requires forall i :: 0 <= i < |b| ==> Understood(cat, b[i])
    ensures Run(cat, s, a + b) == Run(cat, Run(cat, s, a), b)
  {
    if b == [] {
      assert a + b == a;
    } else {
      assert (a + b)[..|a + b| - 1] == a + b[..|b| - 1];
      RunAppend(cat, s, a, b[..|b| - 1]);
    }
  }

  /* ------------------------------------------------- the ALLCOMMANDS shortcut */

  /** The log holds no rule that clears a bit. */
  predicate DeniesNothing(cat: Catalog, ts: seq<string>)
    requires AllLogged(cat, ts)
  {
    forall i :: 0 <= i < |ts| ==> Logged(cat, ts[i]) && !Denies(cat, ts[i])
  }

  lemma DeniesInitAndLast(cat: Catalog, ts: seq<string>)
    requires AllLogged(cat, ts) && ts != []
    ensures AllLogged(cat, ts[..|ts| - 1]) && Logged(cat, ts[|ts| - 1])
    ensures DeniesNothing(cat, ts) <==> DeniesNothing(cat, ts[..|ts| - 1]) && !Denies(cat, ts[|ts| - 1])
  {
    hide Parse;
    hide Denies;
    hide IsToken;
    var init := ts[..|ts| - 1];
    assert forall i :: 0 <= i < |init| ==> ts[i] == init[i];
    assert ts[|ts| - 1] == ts[|init|];
  }

  lemma {:induction false} ReplayedFlag(cat: Catalog, s: Selector, ts: seq<string>)
    requires WellFormed(cat) && ValidSelector(s) && AllLogged(cat, ts)
    ensures forall i :: 0 <= i < |ts| ==> Understood(cat, ts[i])
    ensures Run(cat, s, ts).all <==> s.all && DeniesNothing(cat, ts)
  {
    LoggedUnderstood(cat, ts);
    if ts != [] {
      var init, op := ts[..|ts| - 1], ts[|ts| - 1];
      ReplayedFlag(cat, s, init);
      LoggedStep(cat, Run(cat, s, init), op);
      DeniesInitAndLast(cat, ts);
    }
  }

  /** A selector that has the flag never logged a rule that clears a bit. */
  lemma {:induction false} FlagDeniesNothing(cat: Catalog, ops: seq<string>)
    requires WellFormed(cat) && forall i :: 0 <= i < |ops| ==> Understood(cat, ops[i])
    ensures var s := Run(cat, FRESH, ops); AllLogged(cat, s.rules) && (s.all ==> DeniesNothing(cat, s.rules))
  {
    RunIsFaithful(cat, ops);
    if ops != [] {
      var init, op := ops[..|ops| - 1], ops[|ops| - 1];
      FlagDeniesNothing(cat, init);
      var s := Run(cat, FRESH, init);
      TokenOfParse(cat, op);
      if !Parse(cat, op).action.Flush? {
        LoggedStep(cat, s, op);
        StepDeniesNothing(cat, s.rules, op);
      }
    }
  }

  lemma StepDeniesNothing(cat: Catalog, ts: seq<string>, op: string)
    requires AreTokens(ts) && AllLogged(cat, ts) && Logged(cat, op)
    ensures AllLogged(cat, Prune(ts, op[1..]) + [op])
    ensures DeniesNothing(cat, ts) && !Denies(cat, op) ==> DeniesNothing(cat, Prune(ts, op[1..]) + [op])
  {
    hide Parse;
    hide Denies;
    var kept := Prune(ts, op[1..]);
    PrunedLogged(cat, ts, op[1..]);
    forall i | 0 <= i < |kept| ensures exists j :: 0 <= j < |ts| && ts[j] == kept[i] { assert kept[i] in ts; }
  }

  /** Replaying the description sets the shortcut flag exactly when the reserved bit is set
      and the log denies nothing; it is then true that every bit is set. So the replay has the
      flag of the selector itself unless the selector lost the flag to a rule that has since
      been superseded, from every bit set. */
  lemma DescriptionFlag(cat: Catalog, ops: seq<string>)
    requires WellFormed(cat) && forall i :: 0 <= i < |ops| ==> Understood(cat, ops[i])
    ensures var s := Run(cat, FRESH, ops);
            && (forall i :: 0 <= i < |Description(s)| ==> Understood(cat, Description(s)[i]))
            && AllLogged(cat, s.rules)
            && (Run(cat, FRESH, Description(s)).all <==> s.perms.bits[FUTURE] && DeniesNothing(cat, s.rules))
            && (Run(cat, FRESH, Description(s)).all ==> s.perms.bits == Uniform(true).bits)
            && (Run(cat, FRESH, Description(s)).all == s.all
                <==> s.all || !s.perms.bits[FUTURE] || !DeniesNothing(cat, s.rules))
  {
    DescriptionRebuilds(cat, ops);
    FlagDeniesNothing(cat, ops);
    RunIsFaithful(cat, ops);
    var s := Run(cat, FRESH, ops);
    RunIsFaithful(cat, Description(s));
    SplitJoin(s.rules);
    FlagOfRebuilt(cat, s);
  }

  lemma FlagOfRebuilt(cat: Catalog, s: Selector)
    requires WellFormed(cat) && Faithful(cat, s)
    ensures forall i :: 0 <= i < |Description(s)| ==> Understood(cat, Description(s)[i])
    ensures Run(cat, FRESH, Description(s)).all <==> s.perms.bits[FUTURE] && DeniesNothing(cat, s.rules)
  {
    FaithfulRebuilds(cat, s);
    SplitJoin(s.rules);
    var on := s.perms.bits[FUTURE];
    var first := if on then "+@all" else "-@all";
    OpeningFlush(cat, on);
    LoggedUnderstood(cat, s.rules);
    RunAppend(cat, FRESH, [first], s.rules);
    ReplayedFlag(cat, Run(cat, FRESH, [first]), s.rules);
  }

  /** The flag itself is not rebuilt: allowing everything, denying any one command and allowing
      it again loses the flag, while replaying the remaining log sets it. */
  lemma FlagNotRebuilt(cat: Catalog, c: Cmd)
    requires WellFormed(cat) && FindCmd(cat.cmds, c.name) == Some(c)
    ensures var ops := ["+@all", "-" + c.name, "+" + c.name];
            && (forall i :: 0 <= i < |ops| ==> Understood(cat, ops[i]))
            && var s := Run(cat, FRESH, ops);
               !s.all && s.perms.bits[FUTURE] && s.rules == [ops[2]] && AllLogged(cat, s.rules) && DeniesNothing(cat, s.rules)
  {
    hide Parse;
    hide Act;
    hide Prune;
    hide WellFormed;
    hide FindCmd;
    hide Supersedes;
    var deny, allow := "-" + c.name, "+" + c.name;
    var ops := ["+@all", deny, allow];
    CommandRules(cat, c);
    OpeningFlush(cat, true);
    var s1 := Run(cat, FRESH, ["+@all"]);
    assert ops[..2] == ["+@all", deny] && ops[..2][..1] == ["+@all"];
    LoggedStep(cat, s1, deny);
    var s2 := Step(cat, s1, deny);
    PruneNothing([], c.name);
    assert s2.rules == [deny];
    PruneSingle(deny, c.name);
    LoggedStep(cat, s2, allow);
    UniformBare(cat, true);
    ActKeeps(cat, s1.perms, deny);
    ActKeeps(cat, s2.perms, allow);
  }

  lemma UniformBare(cat: Catalog, on: bool)
    requires WellFormed(cat)
    ensures SubsBare(cat, Uniform(on))
  {
  }

  lemma PlainEntry(cat: Catalog, name: string, e: Entry, allow: bool)
    requires name != "" && name[0] != '@' && !HasBar(name) && Lookup(cat, name) == Some(e) && FullName(e) == name
    ensures Parse(cat, (if allow then "+" else "-") + name) == Ok(EntryChange(e, allow, name))
  {
    hide Lookup;
    hide ParseFirstArg;
    hide ParseCategory;
    hide FullName;
    var op := (if allow then "+" else "-") + name;
    assert op[1..] == name && op[1] == name[0];
    assert op[0] == (if allow then '+' else '-');
    assert op != "allcommands" && op != "nocommands" && op != "+@all" && op != "-@all";
  }

  /** The two rules on one command: the one denies, the other does not and supersedes it. */
  lemma CommandRules(cat: Catalog, c: Cmd)
    requires WellFormed(cat) && FindCmd(cat.cmds, c.name) == Some(c)
    ensures var deny, allow := "-" + c.name, "+" + c.name;
            && Logged(cat, deny) && Denies(cat, deny) && Logged(cat, allow) && !Denies(cat, allow)
            && deny[1..] == c.name && allow[1..] == c.name && Supersedes(c.name, deny)
  {
    hide Parse;
    assert c in cat.cmds && IsName(c.name);
    assert FirstBar(c.name) == |c.name|;
    assert Lookup(cat, c.name) == Some(Top(c));
    PlainEntry(cat, c.name, Top(c), false);
    PlainEntry(cat, c.name, Top(c), true);
    assert c.id in EntryBits(Top(c));
  }

  /* ---------------------------------------------- first arguments with blanks */

  /** A quote-free rule splits back to itself exactly when it holds no blank. The parser does
      not reject blanks in a first argument, so this is what callers must ensure. */
  lemma SplitsBackIffNoBlank(t: string)
    requires t != ""
    ensures SplitArgs(t) == [t] <==> forall i :: 0 <= i < |t| ==> !IsBlank(t[i])
  {
    var n := TokenLength(t);
    if n == |t| {
      assert t[..n] == t && t[n..] == "";
    } else if n == 0 {
      SplitIsShorter(t[1..]);
    } else {
      assert |t[..n]| < |t|;
    }
  }

  lemma {:induction false} SplitIsShorter(s: string)
    ensures forall t :: t in SplitArgs(s) ==> |t| <= |s|
    decreases |s|
  {
    if s != "" {
      if IsBlank(s[0]) { SplitIsShorter(s[1..]); } else { SplitIsShorter(s[TokenLength(s)..]); }
    }
  }

  lemma BarSplit(head: string, arg: string)
    requires !HasBar(head) && !HasBar(arg)
    ensures var name := head + "|" + arg;
            HasBar(name) && LastBar(name) == |head| && name[..|head|] == head && name[|head| + 1..] == arg
  {
    var name := head + "|" + arg;
    assert name[|head|] == '|';
    assert forall i :: |head| < i < |name| ==> name[i] == arg[i - |head| - 1];
  }

  lemma FirstArgAccepted(cat: Catalog, c: Cmd, arg: string)
    requires WellFormed(cat) && FindCmd(cat.cmds, c.name) == Some(c) && !c.container
    requires arg != "" && !HasBar(arg)
    ensures HasBar(c.name + "|" + arg)
    ensures ParseFirstArg(cat, c.name + "|" + arg) == Ok(AllowFirstArg(c.name + "|" + arg, c.id, arg))
  {
    BarSplit(c.name, arg);
    assert FirstBar(c.name) == |c.name|;
  }

  /** Every first argument of a plain command is accepted, whatever characters it holds. */
  lemma AnyFirstArgAccepted(cat: Catalog, c: Cmd, arg: string)
    requires WellFormed(cat) && FindCmd(cat.cmds, c.name) == Some(c) && !c.container
    requires arg != "" && !HasBar(arg)
    ensures Parse(cat, "+" + c.name + "|" + arg) == Ok(AllowFirstArg(c.name + "|" + arg, c.id, arg))
  {
    hide Parse;
    hide ParseFirstArg;
    FirstArgAccepted(cat, c, arg);
    PlusWithBar(cat, c.name + "|" + arg);
    assert "+" + (c.name + "|" + arg) == "+" + c.name + "|" + arg;
  }

  lemma PlusWithBar(cat: Catalog, name: string)
    requires HasBar(name) && name[0] != '@'
    ensures Parse(cat, "+" + name) == ParseFirstArg(cat, name)
  {
    hide ParseFirstArg;
    hide ParseEntry;
    hide ParseCategory;
    var op := "+" + name;
    assert op[1..] == name && op[0] == '+' && op[1] == name[0];
    assert op != "allcommands" && op != "nocommands" && op != "+@all" && op != "-@all";
  }

  /** So a blank in an accepted first argument makes the log replay differently: it splits
      into a shorter rule and a leftover. */
  lemma BlankFirstArgIsNotReplayable(cat: Catalog, c: Cmd, arg: string)
    requires WellFormed(cat) && FindCmd(cat.cmds, c.name) == Some(c) && !c.container
    requires !HasBar(arg) && exists i :: 0 <= i < |arg| && IsBlank(arg[i])
    ensures Parse(cat, "+" + c.name + "|" + arg).Ok?
    ensures SplitArgs(Join(["+" + c.name + "|" + arg])) != ["+" + c.name + "|" + arg]
  {
    hide Parse;
    hide SplitArgs;
    hide FindCmd;
    AnyFirstArgAccepted(cat, c, arg);
    var op := "+" + c.name + "|" + arg;
    var i :| 0 <= i < |arg| && IsBlank(arg[i]);
    assert op[|c.name| + 2 + i] == arg[i];
    SplitsBackIffNoBlank(op);
  }

  /** What the replay does then: a first argument that reads "x +d" gives no command bit, while
      its replay allows the first argument x only, and the whole command d. */
  lemma BlankFirstArgReplays(cat: Catalog, c: Cmd, x: string, d: Cmd)
    requires WellFormed(cat) && FindCmd(cat.cmds, c.name) == Some(c) && !c.container
    requires FindCmd(cat.cmds, d.name) == Some(d) && x != "" && PlainText(x) && !HasBar(x)
    ensures var arg := x + " +" + d.name;
            var op := "+" + c.name + "|" + arg;
            && Parse(cat, op) == Ok(AllowFirstArg(c.name + "|" + arg, c.id, arg))
            && Act(Uniform(false), Parse(cat, op).action).bits == Uniform(false).bits
            && SplitArgs(Join([op])) == ["+" + c.name + "|" + x, "+" + d.name]
    ensures var replay := ["-@all", "+" + c.name + "|" + x, "+" + d.name];
            && (forall i :: 0 <= i < |replay| ==> Understood(cat, replay[i]))
            && Run(cat, FRESH, replay).perms.bits[d.id]
  {
    hide Parse;
    hide SplitArgs;
    hide FindCmd;
    hide WellFormed;
    var arg := x + " +" + d.name;
    var op, first, allow := "+" + c.name + "|" + arg, "+" + c.name + "|" + x, "+" + d.name;
    FoundName(cat, c);
    FoundName(cat, d);
    NoBarAround(x, d.name);
    AnyFirstArgAccepted(cat, c, arg);
    AnyFirstArgAccepted(cat, c, x);
    CommandRules(cat, d);
    FirstArgLogged(cat, c, x);
    assert op == first + " " + allow;
    JoinTwo(first, allow);
    SplitJoin([first, allow]);
    OpeningFlush(cat, false);
    var s := Run(cat, FRESH, ["-@all"]);
    assert ["-@all", first, allow][..2] == ["-@all", first] && ["-@all", first][..1] == ["-@all"];
    LoggedStep(cat, s, first);
    LoggedStep(cat, Step(cat, s, first), allow);
    AllowSets(cat, d, Step(cat, s, first).perms);
  }

  lemma FoundName(cat: Catalog, c: Cmd)
    requires WellFormed(cat) && FindCmd(cat.cmds, c.name) == Some(c)
    ensures IsName(c.name)
  {
  }

  lemma NoBarAround(x: string, name: string)
    requires !HasBar(x) && !HasBar(name)
    ensures !HasBar(x + " +" + name)
  {
  }

  lemma FirstArgLogged(cat: Catalog, c: Cmd, x: string)
    requires IsName(c.name) && x != "" && PlainText(x) && Parse(cat, "+" + c.name + "|" + x).Ok?
    requires !Parse(cat, "+" + c.name + "|" + x).action.Flush?
    ensures Logged(cat, "+" + c.name + "|" + x)
  {
  }

  lemma JoinTwo(a: string, b: string)
    ensures Join([a, b]) == a + " " + b && Join([a + " " + b]) == a + " " + b
  {
    assert [a, b][1..] == [b];
  }

  lemma AllowSets(cat: Catalog, d: Cmd, p: Perms)
    requires WellFormed(cat) && FindCmd(cat.cmds, d.name) == Some(d) && Sized(p)
    ensures Parse(cat, "+" + d.name).Ok? && d.id < BITS && Act(p, Parse(cat, "+" + d.name).action).bits[d.id]
  {
    hide Parse;
    assert d in cat.cmds && IsName(d.name);
    assert FirstBar(d.name) == |d.name|;
    assert Lookup(cat, d.name) == Some(Top(d));
    PlainEntry(cat, d.name, Top(d), true);
    assert d.id in EntryBits(Top(d));
  }
}
