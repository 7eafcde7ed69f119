/** Erlang terms as the driver sees them through `erl_interface`.

    The encoder and decoder of the external term format are not part of this model: a term is
    an abstract value, and the few library calls the driver makes on terms (`erl_element`,
    `ERL_ATOM_PTR`, `erl_iolist_to_string`) are functions on it. Characters of C strings are
    Dafny characters; only the NUL terminator is special. */
module Terms {

  datatype Option<+T> = None | Some(value: T)

  /** A C string: characters up to, not including, the terminating NUL. */
  type CStr = s: string | '\0' !in s

  datatype Term =
    | Atom(name: string)
    | Int(value: int)
    | Str(chars: string)
    | Tuple(elems: seq<Term>)
    | List(elems: seq<Term>)

  /** `erl_element(pos, t)`: element `pos` (counting from 1) of a tuple, or NULL (`None`) when
      `t` is not a tuple that long. */
  function Element(pos: nat, t: Term): Option<Term>
  {
    if t.Tuple? && 1 <= pos <= |t.elems| then Some(t.elems[pos - 1]) else None
  }

  /** What C code reading `s` as a NUL-terminated string sees: everything before the first
      NUL. */
  function CString(s: string): (c: CStr)
    ensures |c| <= |s| && c == s[..|c|]
    ensures |c| < |s| ==> s[|c|] == '\0'
  {
    if s == [] || s[0] == '\0' then [] else [s[0]] + CString(s[1..])
  }

  /** A string without NUL reads back whole as a C string. */
  lemma {:induction false} CStringOfCStr(s: string)
    requires '\0' !in s
    ensures CString(s) == s
  {
    if s != [] {
      assert s[0] in s;
      assert forall c :: c in s[1..] ==> c in s;
      CStringOfCStr(s[1..]);
    }
  }

  /** Whether every character of `cs` is a byte other than 0, the only bytes a C string can
      hold. */
  predicate CBytes(cs: string)
  {
    forall i :: 0 <= i < |cs| ==> 0 < cs[i] as int < 256
  }

  /** `erl_iolist_to_string(t)`: the characters of an I/O list, that is a string or a list
      whose elements are bytes, strings or I/O lists, as a C string; NULL (`None`) for any
      other term, and for an I/O list holding the byte 0, which a C string cannot carry. */
  function IoListChars(t: Term): Option<CStr>
    decreases t, 1
  {
    match t
    case Str(cs) => if CBytes(cs) then Some(cs) else None
    case List(es) => IoListElems(t, |es|)
    case _ => None
  }

  /** The characters of the first `n` elements of the list `t`. */
  function IoListElems(t: Term, n: nat): Option<CStr>
    requires t.List? && n <= |t.elems|
    decreases t, 0, n
  {
    if n == 0 then Some([])
    else
      var front := IoListElems(t, n - 1);
      var last := t.elems[n - 1];
      var tail :=
        if last.Int? then (if 0 < last.value < 256 then Some([last.value as char]) else None)
        else IoListChars(last);
      if front.Some? && tail.Some? then Some(front.value + tail.value) else None
  }

  /** A list of non-zero bytes is an I/O list that spells those bytes. */
  lemma {:induction false} IoListOfBytes(bytes: seq<int>, n: nat)
    requires forall i :: 0 <= i < |bytes| ==> 0 < bytes[i] < 256
    requires n <= |bytes|
    ensures var t := List(seq(|bytes|, i requires 0 <= i < |bytes| => Int(bytes[i])));
            IoListElems(t, n) == Some(seq(n, i requires 0 <= i < n => bytes[i] as char))
  {
    var t := List(seq(|bytes|, i requires 0 <= i < |bytes| => Int(bytes[i])));
    if n > 0 {
      IoListOfBytes(bytes, n - 1);
      assert t.elems[n - 1] == Int(bytes[n - 1]);
      assert seq(n, i requires 0 <= i < n => bytes[i] as char)
          == seq(n - 1, i requires 0 <= i < n - 1 => bytes[i] as char) + [bytes[n - 1] as char];
    }
  }

  /** An I/O list holding the byte 0 anywhere is refused. */
  lemma IoListRefusesNul(bytes: seq<int>, k: nat)
    requires forall i :: 0 <= i < |bytes| ==> 0 <= bytes[i] < 256
    requires k < |bytes| && bytes[k] == 0
    ensures IoListChars(List(seq(|bytes|, i requires 0 <= i < |bytes| => Int(bytes[i])))).None?
  {
    var t := List(seq(|bytes|, i requires 0 <= i < |bytes| => Int(bytes[i])));
    IoListElemsRefuse(t, k, |bytes|);
  }

  /** Once element `k` of a list is refused, so is every longer prefix of the list. */
  lemma {:induction false} IoListElemsRefuse(t: Term, k: nat, n: nat)
    requires t.List? && k < n <= |t.elems| && t.elems[k] == Int(0)
    ensures IoListElems(t, n).None?
  {
    if n - 1 > k {
      IoListElemsRefuse(t, k, n - 1);
    }
  }

  /** Nesting and splitting an I/O list does not change what it spells: a list of two
      I/O lists spells the first followed by the second. */
  lemma IoListPair(a: Term, b: Term)
    requires IoListChars(a).Some? && IoListChars(b).Some?
    ensures IoListChars(List([a, b])) == Some(IoListChars(a).value + IoListChars(b).value)
  {
    var t := List([a, b]);
    assert t.elems[0] == a && t.elems[1] == b;
    assert IoListElems(t, 1) == Some([] + IoListChars(a).value);
    assert [] + IoListChars(a).value == IoListChars(a).value;
    assert IoListElems(t, 2) == Some(IoListChars(a).value + IoListChars(b).value);
  }
}
