/** Worked commands: what the three extraction expressions of
    src/shuttle.tsx:30-32 give for typical catalog entries, and where they
    throw. Each lemma takes the command as a parameter equal to its literal,
    which keeps the solver from unfolding the string functions on the
    literal character by character. */
module Scenarios {
  import opened Values
  import opened Text
  import opened Extraction

  /** A note with one leading space trims to the note. */
  lemma TrimLeadingSpace(word: string)
    requires word != [] && !IsSpace(word[0]) && !IsSpace(word[|word| - 1])
    ensures Trim(" " + word) == word
  {
    var s := " " + word;
    assert word == s[1..1 + |word|] && AllSpace(s[..1]) && AllSpace(s[1 + |word|..]);
    TrimUnique(s, word);
  }

  /** A login followed by ` # ` and a note: the note is the comment. */
  lemma SpacedNote(program: string, user: string, host: string, note: string)
    requires '@' !in program && '#' !in program
    requires user != [] && forall k :: 0 <= k < |user| ==> IsWordChar(user[k])
    requires forall k :: 0 <= k < |host| ==> IsHostChar(host[k])
    requires note != [] && !IsSpace(note[0]) && !IsSpace(note[|note| - 1])
    ensures Extract(program + " " + user + "@" + host + " " + "#" + (" " + note)) ==
            Ok(Fields(note, if host == [] then None else Some(host), user))
  {
    TrimLeadingSpace(note);
    LoginWithNoteFields(program, user, host, " ", " " + note);
  }

  /** A login with a password note after `#`. */
  lemma LoginWithNote(cmd: string)
    requires cmd == "ssh bob@10.0.0.5 # pw"
    ensures Extract(cmd) == Ok(Fields("pw", Some("10.0.0.5"), "bob"))
  {
    assert cmd == "ssh" + " " + "bob" + "@" + "10.0.0.5" + " " + "#" + (" " + "pw");
    SpacedNote("ssh", "bob", "10.0.0.5", "pw");
  }

  /** Without a `#`, the comment is the whole command. */
  lemma LoginWithoutNote(cmd: string)
    requires cmd == "ssh bob@db.lan"
    ensures Extract(cmd) == Ok(Fields("ssh bob@db.lan", Some("db.lan"), "bob"))
  {
    assert cmd == "ssh" + " " + "bob" + "@" + "db.lan" + "";
    LoginWithoutNoteFields("ssh", "bob", "db.lan", "");
  }

  /** A hyphen ends the address. */
  lemma HyphenatedHost(cmd: string)
    requires cmd == "ssh root@my-host"
    ensures Extract(cmd) == Ok(Fields("ssh root@my-host", Some("my"), "root"))
  {
    assert cmd == "ssh" + " " + "root" + "@" + "my" + "-host";
    LoginWithoutNoteFields("ssh", "root", "my", "-host");
  }

  /** Nothing after the `@` that could be an address: `ip` is undefined. */
  lemma NoAddress(cmd: string)
    requires cmd == "ssh a@ -p 22"
    ensures Extract(cmd) == Ok(Fields("ssh a@ -p 22", None, "a"))
  {
    assert cmd == "ssh" + " " + "a" + "@" + "" + " -p 22";
    LoginWithoutNoteFields("ssh", "a", "", " -p 22");
  }

  /** A command without an `@` throws. */
  lemma NoAt(cmd: string)
    requires cmd == "echo hello"
    ensures Extract(cmd) == Err(NullRead("1"))
  {
    assert '@' !in cmd;
  }

  /** A command that starts with its user throws: the user must follow
      whitespace. */
  lemma UserFirst(cmd: string)
    requires cmd == "root@host"
    ensures Extract(cmd) == Err(NullRead("1"))
  {
    NoSpaceNoUser(cmd);
  }
}
