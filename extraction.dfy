/** The three fields a leaf's command yields (src/shuttle.tsx:30-32): the
    comment after the first `#`, the address after the first `@`, and the
    login user before an `@`. */
module Extraction {
  import opened Values
  import opened Text

  datatype Fields = Fields(comment: string, ip: Option<string>, user: string)

  /** `cmd.substring(cmd.indexOf('#') + 1).trim()`: what follows the first
      `#`, trimmed. With no `#`, `indexOf` gives -1 and the whole command is
      kept. */
  function Comment(cmd: string): (r: string)
    ensures '#' !in cmd ==> r == Trim(cmd)
    ensures forall p | FirstAt(cmd, '#', p) :: r == Trim(cmd[p + 1..])
  {
    var i := IndexOf(cmd, '#');
    forall p | FirstAt(cmd, '#', p) ensures p == i {
      IndexOfFirst(cmd, '#', p);
    }
    var rest := cmd[i + 1..];
    assert i == -1 ==> rest == cmd;
    Trim(rest)
  }

  /** The comment is fixed by the trimming it undergoes: any trim of what
      follows the first `#`, or of the whole command when it has none, is
      the comment. */
  lemma CommentIs(cmd: string, r: string)
    requires '#' !in cmd ==> IsTrimOf(r, cmd)
    requires forall p | FirstAt(cmd, '#', p) :: IsTrimOf(r, cmd[p + 1..])
    ensures Comment(cmd) == r
  {
    var i := IndexOf(cmd, '#');
    if i < 0 {
      TrimUnique(cmd, r);
    } else {
      TrimUnique(cmd[i + 1..], r);
    }
  }

  /** `g` is the longest run of `[\.\w\d]` characters of `cmd` starting at
      `start`. */
  ghost predicate LongestHostRun(cmd: string, start: nat, g: string) {
    start + |g| <= |cmd| && cmd[start..start + |g|] == g &&
    (forall k :: 0 <= k < |g| ==> IsHostChar(g[k])) &&
    (start + |g| == |cmd| || !IsHostChar(cmd[start + |g|]))
  }

  /** `cmd.match(/@([\.\w\d]+)?/)`. The outer `None` is a `null` match;
      otherwise the value is capture group 1, `None` when it is `undefined`.
      The pattern matches at the first `@`, its group takes the longest run
      of host characters after it, and is left out when that run is empty. */
  function IpMatch(cmd: string): (m: Option<Option<string>>)
    ensures m.None? <==> '@' !in cmd
    ensures forall p | FirstAt(cmd, '@', p) ::
              m.Some? &&
              (m.value.None? <==> LongestHostRun(cmd, p + 1, [])) &&
              (m.value.Some? ==> m.value.value != [] && LongestHostRun(cmd, p + 1, m.value.value))
  {
    var p := IndexOf(cmd, '@');
    forall q | FirstAt(cmd, '@', q) ensures q == p {
      IndexOfFirst(cmd, '@', q);
    }
    if p < 0 then None
    else
      var e := RunEnd(cmd, p + 1, IsHostChar);
      assert cmd[p + 1..e] == cmd[p + 1..p + 1 + (e - (p + 1))];
      if e == p + 1 then Some(None) else Some(Some(cmd[p + 1..e]))
  }

  /** Every character of a run is a host character. */
  lemma HostRunChars(cmd: string, start: nat, g: string)
    requires LongestHostRun(cmd, start, g)
    ensures forall k :: start <= k < start + |g| ==> IsHostChar(cmd[k])
  {
    forall k | start <= k < start + |g| ensures IsHostChar(cmd[k]) {
      assert cmd[k] == g[k - start];
    }
  }

  /** There is only one longest run at a position. */
  lemma HostRunUnique(cmd: string, start: nat, g: string, h: string)
    requires LongestHostRun(cmd, start, g) && LongestHostRun(cmd, start, h)
    ensures g == h
  {
    HostRunChars(cmd, start, g);
    HostRunChars(cmd, start, h);
  }

  /** The capture group is the run of host characters after the first `@`:
      whatever that run is, `IpMatch` finds exactly it. */
  lemma IpMatchIs(cmd: string, p: nat, g: string)
    requires FirstAt(cmd, '@', p) && LongestHostRun(cmd, p + 1, g)
    ensures IpMatch(cmd) == Some(if g == [] then None else Some(g))
  {
    var m := IpMatch(cmd);
    if m.value.Some? {
      HostRunUnique(cmd, p + 1, g, m.value.value);
    }
  }

  /** The pattern `\s([\w\d]+)@` matches `cmd` at position `i` with capture
      group 1 ending at `j`: whitespace at `i`, word characters from `i + 1`
      up to `j`, at least one of them, and an `@` at `j`. */
  predicate UserAt(cmd: string, i: nat, j: nat) {
    i + 1 < j < |cmd| && IsSpace(cmd[i]) && cmd[j] == '@' &&
    forall k :: i + 1 <= k < j ==> IsWordChar(cmd[k])
  }

  /** The match `cmd.match` reports: the leftmost one. */
  ghost predicate LeftmostUserAt(cmd: string, i: nat, j: nat) {
    UserAt(cmd, i, j) && forall i': nat, j': nat :: i' < i ==> !UserAt(cmd, i', j')
  }

  /** A match at `i` can end only where the run of word characters after
      `i` ends, so a position has at most one match. */
  lemma UserEnd(cmd: string, i: nat, j: nat)
    requires UserAt(cmd, i, j)
    ensures j == RunEnd(cmd, i + 1, IsWordChar)
  {
  }

  /** The regular-expression engine's scan for the leftmost match at or
      after `from`, as the pair (start, end of group 1). */
  function UserSearch(cmd: string, from: nat): (r: Option<(nat, nat)>)
    requires from <= |cmd|
    ensures r.Some? ==> from <= r.value.0 && UserAt(cmd, r.value.0, r.value.1)
    ensures r.Some? ==> forall i: nat, j: nat :: from <= i < r.value.0 ==> !UserAt(cmd, i, j)
    ensures r.None? ==> forall i: nat, j: nat :: from <= i ==> !UserAt(cmd, i, j)
    decreases |cmd| - from
  {
    if from == |cmd| then None
    else
      var j := RunEnd(cmd, from + 1, IsWordChar);
      if IsSpace(cmd[from]) && from + 1 < j < |cmd| && cmd[j] == '@' then Some((from, j))
      else
        assert forall j': nat :: !UserAt(cmd, from, j') by {
          forall j': nat | UserAt(cmd, from, j') ensures false {
            UserEnd(cmd, from, j');
          }
        }
        UserSearch(cmd, from + 1)
  }

  /** `cmd.match(/\s([\w\d]+)@/)[1]`, with `None` for a `null` match: the
      word run of the leftmost whitespace-word-`@` occurrence. A command that
      starts with `user@`, or whose user contains a dot or a hyphen right
      before the `@`, has none. */
  function UserMatch(cmd: string): (r: Option<string>)
    ensures r.None? <==> forall i: nat, j: nat :: !UserAt(cmd, i, j)
    ensures r.Some? ==> exists i: nat, j: nat :: LeftmostUserAt(cmd, i, j) && r.value == cmd[i + 1..j]
  {
    match UserSearch(cmd, 0)
    case None => None
    case Some((i, j)) =>
      assert LeftmostUserAt(cmd, i, j);
      Some(cmd[i + 1..j])
  }

  /** The leftmost match is unique, so the match found is the one at the
      leftmost position. */
  lemma UserMatchIs(cmd: string, i: nat, j: nat)
    requires LeftmostUserAt(cmd, i, j)
    ensures UserMatch(cmd) == Some(cmd[i + 1..j])
  {
    var r := UserMatch(cmd);
    var i': nat, j': nat :| LeftmostUserAt(cmd, i', j') && r.value == cmd[i' + 1..j'];
    assert i' == i;
    UserEnd(cmd, i, j);
    UserEnd(cmd, i', j');
  }

  /** The comment of a command with a `#` is what follows its first `#`,
      trimmed. */
  lemma CommentAfterHash(before: string, note: string)
    requires '#' !in before
    ensures Comment(before + "#" + note) == Trim(note)
  {
    var cmd := before + "#" + note;
    assert cmd[..|before|] == before;
    assert FirstAt(cmd, '#', |before|);
    assert cmd[|before| + 1..] == note;
  }

  /** A command of the usual shape `<program> <user>@<host><rest>`: the user
      and the address are read from around its `@`, provided nothing before
      the user holds an `@` and `rest` does not continue the host. */
  lemma LoginFields(program: string, user: string, host: string, rest: string)
    requires '@' !in program
    requires user != [] && forall k :: 0 <= k < |user| ==> IsWordChar(user[k])
    requires forall k :: 0 <= k < |host| ==> IsHostChar(host[k])
    requires rest == [] || !IsHostChar(rest[0])
    ensures var cmd := program + " " + user + "@" + host + rest;
            Extract(cmd) == Ok(Fields(Comment(cmd), if host == [] then None else Some(host), user))
  {
    var cmd := program + " " + user + "@" + host + rest;
    var sp := |program|;
    var at := sp + 1 + |user|;
    assert cmd[..at] == program + " " + user;
    assert FirstAt(cmd, '@', at);
    assert cmd[at + 1..at + 1 + |host|] == host;
    assert LongestHostRun(cmd, at + 1, host);
    assert cmd[sp + 1..at] == user;
    assert UserAt(cmd, sp, at);
    forall i: nat, j: nat | i < sp && i + 1 < j < |cmd| && cmd[j] == '@'
      ensures !UserAt(cmd, i, j)
    {
      FirstAtLeast(cmd, '@', at, j);
      assert !IsWordChar(cmd[sp]);
    }
    IpMatchIs(cmd, at, host);
    UserMatchIs(cmd, sp, at);
  }

  /** The same command without any `#`: the comment is the whole command,
      which here has no whitespace to trim. */
  lemma LoginWithoutNoteFields(program: string, user: string, host: string, rest: string)
    requires '@' !in program && '#' !in program && '#' !in rest
    requires program != [] && !IsSpace(program[0])
    requires user != [] && forall k :: 0 <= k < |user| ==> IsWordChar(user[k])
    requires forall k :: 0 <= k < |host| ==> IsHostChar(host[k])
    requires rest == [] || (!IsHostChar(rest[0]) && !IsSpace(rest[|rest| - 1]))
    ensures var cmd := program + " " + user + "@" + host + rest;
            Extract(cmd) == Ok(Fields(cmd, if host == [] then None else Some(host), user))
  {
    var cmd := program + " " + user + "@" + host + rest;
    assert forall k :: 0 <= k < |user| ==> user[k] != '#';
    assert forall k :: 0 <= k < |host| ==> host[k] != '#';
    assert '#' !in cmd;
    assert cmd[0] == program[0];
    var last := cmd[|cmd| - 1];
    if rest != [] {
      assert last == rest[|rest| - 1];
    } else if host != [] {
      assert last == host[|host| - 1];
    } else {
      assert last == '@';
    }
    TrimKeeps(cmd);
    LoginFields(program, user, host, rest);
  }

  /** The same command with a note after a `#` that follows the host: the
      comment is the note, trimmed. */
  lemma LoginWithNoteFields(program: string, user: string, host: string, gap: string, note: string)
    requires '@' !in program && '#' !in program && '#' !in gap
    requires user != [] && forall k :: 0 <= k < |user| ==> IsWordChar(user[k])
    requires forall k :: 0 <= k < |host| ==> IsHostChar(host[k])
    requires gap == [] || !IsHostChar(gap[0])
    ensures Extract(program + " " + user + "@" + host + gap + "#" + note) ==
            Ok(Fields(Trim(note), if host == [] then None else Some(host), user))
  {
    var login := program + " " + user + "@" + host;
    var before := login + gap;
    var rest := gap + "#" + note;
    assert forall k :: 0 <= k < |user| ==> user[k] != '#';
    assert forall k :: 0 <= k < |host| ==> host[k] != '#';
    assert '#' !in login;
    CommentAfterHash(before, note);
    AppendAssociative(login, gap + "#", note);
    AppendAssociative(login, gap, "#");
    assert rest[0] == if gap == [] then '#' else gap[0];
    LoginFields(program, user, host, rest);
  }

  /** Without whitespace there is no user match, so extraction throws. */
  lemma NoSpaceNoUser(cmd: string)
    requires forall k :: 0 <= k < |cmd| ==> !IsSpace(cmd[k])
    ensures Extract(cmd) == Err(NullRead("1"))
  {
  }

  /** The `comment`, `ip` and `user` properties of a host record, in the
      order the object literal evaluates them. Indexing a `null` match with
      `[1]` throws; both patterns throw the same way. */
  function Extract(cmd: string): (r: Result<Fields>)
    ensures r.Ok? <==> '@' in cmd && exists i: nat, j: nat :: UserAt(cmd, i, j)
    ensures r.Err? ==> r.error == NullRead("1")
    ensures r.Ok? ==> r.value.comment == Comment(cmd) && IpMatch(cmd) == Some(r.value.ip) &&
                      UserMatch(cmd) == Some(r.value.user)
  {
    var comment := Comment(cmd);
    match IpMatch(cmd)
    case None => Err(NullRead("1"))
    case Some(ip) =>
      match UserMatch(cmd)
      case None => Err(NullRead("1"))
      case Some(user) => Ok(Fields(comment, ip, user))
  }
}
