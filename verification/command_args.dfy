/**
 * Recognition of one command token (command_get_arg): the token is first
 * looked up among the flag commands by exact equality, then among the
 * action commands as a prefix that is followed by a space or by the end of
 * the token.  The two command tables live in a header that is not part of
 * this model; they are parameters here, in table order.
 */
module CommandArgs {
  import opened Wrappers

  /** A recognised token: a flag command, or an action command whose name has `nameLen` characters. */
  datatype Recognised = Flag(index: nat) | Action(index: nat, nameLen: nat)

  /** The first flag name at or after `i` equal to the token. */
  function FirstEqual(tok: string, names: seq<string>, i: nat): (r: Option<nat>)
    requires i <= |names|
    ensures r.Some? ==> i <= r.value < |names| && names[r.value] == tok
    ensures r.Some? ==> forall j :: i <= j < r.value ==> names[j] != tok
    ensures r.None? <==> forall j :: i <= j < |names| ==> names[j] != tok
    decreases |names| - i
  {
    if i == |names| then None
    else if names[i] == tok then Some(i)
    else FirstEqual(tok, names, i + 1)
  }

  /** The first action name at or after `i` that the token starts with (strstr(tok, str) == tok). */
  function FirstPrefix(tok: string, actions: seq<string>, i: nat): (r: Option<nat>)
    requires i <= |actions|
    ensures r.Some? ==> i <= r.value < |actions| && actions[r.value] <= tok
    ensures r.Some? ==> forall j :: i <= j < r.value ==> !(actions[j] <= tok)
    ensures r.None? <==> forall j :: i <= j < |actions| ==> !(actions[j] <= tok)
    decreases |actions| - i
  {
    if i == |actions| then None
    else if actions[i] <= tok then Some(i)
    else FirstPrefix(tok, actions, i + 1)
  }

  /** The character after a command name is a space or the terminator. */
  predicate EndsName(tok: string, n: nat)
    requires n <= |tok|
  {
    n == |tok| || tok[n] == ' '
  }

  /**
   * What command_get_arg recognises.  Only the first action name the token
   * starts with is considered: if it is followed by anything other than a
   * space, the token is refused even when a later action name would fit.
   */
  function Recognise(tok: string, names: seq<string>, actions: seq<string>): (r: Option<Recognised>)
    ensures (r.Some? && r.value.Flag?) <==> tok in names
    ensures r.Some? && r.value.Flag? ==>
      r.value.index < |names| && names[r.value.index] == tok
      && forall j :: 0 <= j < r.value.index ==> names[j] != tok
    ensures r.Some? && r.value.Action? ==>
      tok !in names && r.value.index < |actions|
      && actions[r.value.index] <= tok && r.value.nameLen == |actions[r.value.index]|
      && EndsName(tok, r.value.nameLen)
      && forall j :: 0 <= j < r.value.index ==> !(actions[j] <= tok)
    ensures r.None? ==>
      tok !in names
      && forall j :: 0 <= j < |actions| && actions[j] <= tok ==>
           (exists l :: 0 <= l < j && actions[l] <= tok) || !EndsName(tok, |actions[j]|)
  {
    match FirstEqual(tok, names, 0)
    case Some(i) => Some(Flag(i))
    case None =>
      match FirstPrefix(tok, actions, 0)
      case None => None
      case Some(i) =>
        if EndsName(tok, |actions[i]|) then Some(Action(i, |actions[i]|)) else None
  }

  /** The two table scans of command_get_arg. */
  method GetArg(tok: string, names: seq<string>, actions: seq<string>) returns (r: Option<Recognised>)
    ensures r == Recognise(tok, names, actions)
  {
    var i := 0;
    while i < |names|
      invariant 0 <= i <= |names|
      invariant FirstEqual(tok, names, 0) == FirstEqual(tok, names, i)
    {
      if names[i] == tok {
        return Some(Flag(i));
      }
      i := i + 1;
    }
    i := 0;
    while i < |actions|
      invariant 0 <= i <= |actions|
      invariant FirstPrefix(tok, actions, 0) == FirstPrefix(tok, actions, i)
    {
      var name := actions[i];
      if name <= tok {
        if |name| < |tok| && tok[|name|] != ' ' {
          return None;
        }
        return Some(Action(i, |name|));
      }
      i := i + 1;
    }
    return None;
  }

  /**
   * Where the argument handed to the action starts, as written: one past the
   * end of the command name, whether the name ended at a space or at the
   * terminator.  A flag command has no argument.
   */
  function ArgStartAsWritten(m: Recognised): (r: Option<nat>)
    ensures r.Some? <==> m.Action?
    ensures m.Action? ==> r.value > m.nameLen
  {
    match m
    case Flag(_) => None
    case Action(_, n) => Some(n + 1)
  }

  /** A bare action name: the argument as written starts past the token's terminator. */
  lemma ArgPastTerminatorAsWritten(tok: string, names: seq<string>)
    requires tok !in names
    ensures Recognise(tok, names, [tok]) == Some(Action(0, |tok|))
    ensures ArgStartAsWritten(Action(0, |tok|)).value > |tok|
  {
    assert [tok][0] == tok;
  }

  /**
   * Where the argument starts: after the separating space, or at the
   * terminator (an empty argument) when the token is the bare action name.
   */
  function ArgStart(tok: string, m: Recognised): (r: Option<nat>)
    requires m.Action? ==> m.nameLen <= |tok|
    ensures r.Some? <==> m.Action?
    ensures m.Action? ==> m.nameLen <= r.value <= |tok|
  {
    match m
    case Flag(_) => None
    case Action(_, n) => Some(if n == |tok| then n else n + 1)
  }

  /**
   * A recognised action token is its name, then a single space unless the
   * token ends there, then the argument; the argument lies inside the token.
   */
  lemma ActionTokenSplits(tok: string, names: seq<string>, actions: seq<string>)
    requires Recognise(tok, names, actions).Some?
    requires Recognise(tok, names, actions).value.Action?
    ensures var m := Recognise(tok, names, actions).value;
      var k := ArgStart(tok, m).value;
      k <= |tok|
      && tok == actions[m.index] + (if k == m.nameLen then "" else " ") + tok[k..]
      && (k == m.nameLen <==> tok == actions[m.index])
  {
    var m := Recognise(tok, names, actions).value;
    var k := ArgStart(tok, m).value;
    assert tok == tok[..m.nameLen] + tok[m.nameLen..k] + tok[k..];
  }

  /** The correction differs from the code only for a bare action name. */
  lemma ArgStartDiffersOnlyWhenBare(tok: string, names: seq<string>, actions: seq<string>)
    requires Recognise(tok, names, actions).Some?
    ensures var m := Recognise(tok, names, actions).value;
      ArgStart(tok, m) != ArgStartAsWritten(m) <==> m.Action? && tok == actions[m.index]
  {
  }
}
