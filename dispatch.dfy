/** Command dispatch of the port driver: `dispatch_db_cmd` in src/mysqlerl.c.

    A command is a tuple whose first element is an atom naming the operation. The atom's text
    is compared with `strncmp` against each command name, limited to the length of that name,
    so a tag is routed by the first name it starts with. */
module Dispatch {
  import opened Terms

  const QUERY_MSG: CStr := "sql_query"
  const COMMIT_MSG: CStr := "sql_commit"
  const ROLLBACK_MSG: CStr := "sql_rollback"

  /** Exit status of the process for a command it does not know. */
  const EXIT_UNKNOWN_COMMAND: nat := 3

  /** Character `i` of a C string, where the terminator is read past its end. */
  function CharAt(s: CStr, i: nat): char
  {
    if i < |s| then s[i] else '\0'
  }

  /** `strncmp(a + i, b + i, n - i)`: 0 when the strings agree on their first `n` characters
      or up to a common terminator, otherwise the difference of the first characters that
      differ. */
  function StrncmpFrom(a: CStr, b: CStr, i: nat, n: nat): int
    decreases n - i
  {
    if n <= i then 0
    else if CharAt(a, i) != CharAt(b, i) then CharAt(a, i) as int - CharAt(b, i) as int
    else if CharAt(a, i) == '\0' then 0
    else StrncmpFrom(a, b, i + 1, n)
  }

  /** `strncmp(a, b, n)`. */
  function Strncmp(a: CStr, b: CStr, n: nat): int
  {
    StrncmpFrom(a, b, 0, n)
  }

  /** `p` is a prefix of `s`. */
  predicate StartsWith(s: string, p: string)
  {
    |p| <= |s| && s[..|p|] == p
  }

  /** From position `i` on, `strncmp` limited to the length of `c` finds no difference exactly
      when `a` goes on with the rest of `c`. */
  lemma {:induction false} StrncmpFromPrefix(a: CStr, c: CStr, i: nat)
    requires i <= |c| && i <= |a|
    ensures StrncmpFrom(a, c, i, |c|) == 0 <==> |c| <= |a| && a[i..|c|] == c[i..]
    decreases |c| - i
  {
    if i < |c| {
      assert c[i] in c;
      if |a| == i {
        assert CharAt(a, i) == '\0' != CharAt(c, i);
      } else if a[i] != c[i] {
        if |c| <= |a| {
          assert a[i..|c|][0] == a[i] && c[i..][0] == c[i];
        }
      } else {
        assert a[i] in a;
        StrncmpFromPrefix(a, c, i + 1);
        if |c| <= |a| {
          assert a[i..|c|] == [a[i]] + a[i + 1..|c|];
          assert c[i..] == [c[i]] + c[i + 1..];
        }
      }
    }
  }

  /** `strncmp(tag, name, strlen(name)) == 0` is the prefix test. */
  lemma StrncmpPrefix(a: CStr, c: CStr)
    ensures Strncmp(a, c, |c|) == 0 <==> StartsWith(a, c)
  {
    StrncmpFromPrefix(a, c, 0);
    assert c[0..] == c;
    if |c| <= |a| {
      assert a[0..|c|] == a[..|c|];
    }
  }

  /** Where `dispatch_db_cmd` sends a command. */
  datatype Route =
    | QueryRoute
    | CommitRoute
    | RollbackRoute
    /** The tag is an atom that starts with no command name: exit status 3. */
    | UnknownTag(tag: CStr)
    /** The command has no first element, or it is not an atom: `ERL_ATOM_PTR` reads memory
        that holds no atom, which C leaves undefined. */
    | BadTag

  /** The text `ERL_ATOM_PTR` yields for the command's tag, if the tag is an atom. */
  function TagText(cmd: Term): Option<CStr>
  {
    match Element(1, cmd)
    case Some(Atom(name)) => Some(CString(name))
    case _ => None
  }

  /** The decision of `dispatch_db_cmd`, tried in source order. */
  function SelectRoute(cmd: Term): Route
  {
    match TagText(cmd)
    case None => BadTag
    case Some(tag) =>
      if Strncmp(tag, QUERY_MSG, |QUERY_MSG|) == 0 then QueryRoute
      else if Strncmp(tag, COMMIT_MSG, |COMMIT_MSG|) == 0 then CommitRoute
      else if Strncmp(tag, ROLLBACK_MSG, |ROLLBACK_MSG|) == 0 then RollbackRoute
      else UnknownTag(tag)
  }

  /** No tag starts with two of the command names: they part at their fifth character. */
  lemma NamesExclusive(s: string)
    ensures !(StartsWith(s, QUERY_MSG) && StartsWith(s, COMMIT_MSG))
    ensures !(StartsWith(s, QUERY_MSG) && StartsWith(s, ROLLBACK_MSG))
    ensures !(StartsWith(s, COMMIT_MSG) && StartsWith(s, ROLLBACK_MSG))
  {
    if StartsWith(s, QUERY_MSG) {
      assert s[4] == QUERY_MSG[4] == 'q';
    }
    if StartsWith(s, COMMIT_MSG) {
      assert s[4] == COMMIT_MSG[4] == 'c';
    }
  }

  /** Dispatch is a prefix match: each route is taken exactly when the tag starts with its
      name, and a tag that starts with none of them is unknown. */
  lemma RouteByPrefix(cmd: Term)
    requires TagText(cmd).Some?
    ensures var tag := TagText(cmd).value;
            && (SelectRoute(cmd) == QueryRoute <==> StartsWith(tag, QUERY_MSG))
            && (SelectRoute(cmd) == CommitRoute <==> StartsWith(tag, COMMIT_MSG))
            && (SelectRoute(cmd) == RollbackRoute <==> StartsWith(tag, ROLLBACK_MSG))
            && (SelectRoute(cmd) == UnknownTag(tag) <==>
                  !StartsWith(tag, QUERY_MSG) && !StartsWith(tag, COMMIT_MSG)
                  && !StartsWith(tag, ROLLBACK_MSG))
  {
    var tag := TagText(cmd).value;
    StrncmpPrefix(tag, QUERY_MSG);
    StrncmpPrefix(tag, COMMIT_MSG);
    StrncmpPrefix(tag, ROLLBACK_MSG);
    NamesExclusive(tag);
  }

  /** A command whose first element is missing or not an atom, and only such a command,
      takes the undefined path. */
  lemma BadTagIff(cmd: Term)
    ensures SelectRoute(cmd) == BadTag <==>
              !(cmd.Tuple? && 1 <= |cmd.elems| && cmd.elems[0].Atom?)
  {
  }

  /** The route of a command whose tag is the atom `name`, a string without NUL. */
  lemma RouteOfAtom(name: string, rest: seq<Term>)
    requires '\0' !in name
    ensures TagText(Tuple([Atom(name)] + rest)).Some?
    ensures TagText(Tuple([Atom(name)] + rest)).value == name
  {
    CStringOfCStr(name);
    assert Element(1, Tuple([Atom(name)] + rest)) == Some(Atom(name));
  }

  /** Only the first `strlen(name)` characters are compared: any tag that starts with a
      command name, however it goes on, is that command. */
  lemma LongerTagMatches(suffix: CStr, rest: seq<Term>)
    ensures SelectRoute(Tuple([Atom(QUERY_MSG + suffix)] + rest)) == QueryRoute
    ensures SelectRoute(Tuple([Atom(COMMIT_MSG + suffix)] + rest)) == CommitRoute
    ensures SelectRoute(Tuple([Atom(ROLLBACK_MSG + suffix)] + rest)) == RollbackRoute
  {
    forall name: CStr | name in {QUERY_MSG, COMMIT_MSG, ROLLBACK_MSG}
      ensures TagText(Tuple([Atom(name + suffix)] + rest)).Some?
      ensures TagText(Tuple([Atom(name + suffix)] + rest)).value == name + suffix
      ensures StartsWith(name + suffix, name)
    {
      assert forall k :: k in name + suffix ==> k in name || k in suffix;
      RouteOfAtom(name + suffix, rest);
      assert (name + suffix)[..|name|] == name;
    }
    RouteByPrefix(Tuple([Atom(QUERY_MSG + suffix)] + rest));
    RouteByPrefix(Tuple([Atom(COMMIT_MSG + suffix)] + rest));
    RouteByPrefix(Tuple([Atom(ROLLBACK_MSG + suffix)] + rest));
  }
}
