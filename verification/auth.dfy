/** The body of an authentication request, and the names it carries. */
module Auth {
  import opened Bytes

  const MAX_NAME_LENGTH: nat := 255

  /** ASCII letters, digits, `-` and `_`. */
  predicate NameChar(c: byte) {
    48 <= c <= 57 || 65 <= c <= 90 || 97 <= c <= 122 || c == 45 || c == 95
  }

  predicate ValidName(name: seq<byte>) {
    && 1 <= |name| <= MAX_NAME_LENGTH
    && forall k :: 0 <= k < |name| ==> NameChar(name[k])
  }

  /** A name with its two-byte length in front. */
  function NameField(name: seq<byte>): seq<byte> {
    Be16(|name|) + name
  }

  function AuthBody(hostname: seq<byte>, username: seq<byte>): seq<byte> {
    NameField(hostname) + NameField(username)
  }

  datatype NameRead = Short(left: seq<byte>) | Name(name: seq<byte>, left: seq<byte>)

  function ReadName(body: seq<byte>): NameRead {
    if |body| < 2 then Short(body)
    else
      var n := U16(body);
      if |body| - 2 < n then Short(body[2..]) else Name(body[2..2 + n], body[2 + n..])
  }

  /** The verdict on a request, the names stored by reading it, and the bytes left unread. */
  datatype AuthRead = AuthRead(ok: bool, hostname: seq<byte>, username: seq<byte>, left: seq<byte>)

  function ReadAuth(body: seq<byte>, hostname: seq<byte>, username: seq<byte>): AuthRead {
    match ReadName(body)
    case Short(left) => AuthRead(false, hostname, username, left)
    case Name(h, rest) =>
      if !ValidName(h) then AuthRead(false, h, username, rest)
      else
        match ReadName(rest)
        case Short(left) => AuthRead(false, h, username, left)
        case Name(u, left) => AuthRead(ValidName(u), h, u, left)
  }

  lemma ReadNameOfField(name: seq<byte>, t: seq<byte>)
    requires |name| < 0x1_0000
    ensures ReadName(NameField(name) + t) == Name(name, t)
  {
    var b := NameField(name) + t;
    assert U16(b) == U16(Be16(|name|)) == |name|;
    assert b[2..2 + |name|] == name && b[2 + |name|..] == t;
  }

  lemma ReadNameInverse(body: seq<byte>)
    requires ReadName(body).Name?
    ensures body == NameField(ReadName(body).name) + ReadName(body).left
  {
    Be16OfU16(body);
    assert body == body[..2] + body[2..2 + U16(body)] + body[2 + U16(body)..];
  }

  lemma {:induction false} AcceptsEncoded(h: seq<byte>, u: seq<byte>, t: seq<byte>, h0: seq<byte>, u0: seq<byte>)
    requires ValidName(h) && |u| < 0x1_0000
    ensures ReadAuth(AuthBody(h, u) + t, h0, u0) == AuthRead(ValidName(u), h, u, t)
  {
    Assoc(NameField(h), NameField(u), t);
    ReadNameOfField(h, NameField(u) + t);
    ReadNameOfField(u, t);
  }

  /**
   * A request is accepted exactly when its body starts with the encoding of two valid names;
   * those are the names stored, and whatever follows them is ignored.
   */
  lemma AcceptedExactlyWhen(body: seq<byte>, h0: seq<byte>, u0: seq<byte>)
    ensures ReadAuth(body, h0, u0).ok
       <==> exists h, u, t :: ValidName(h) && ValidName(u) && body == AuthBody(h, u) + t
    ensures forall h, u, t :: ValidName(h) && ValidName(u) && body == AuthBody(h, u) + t ==>
              ReadAuth(body, h0, u0) == AuthRead(true, h, u, t)
  {
    var r := ReadAuth(body, h0, u0);
    if r.ok {
      var rest := ReadName(body).left;
      ReadNameInverse(body);
      ReadNameInverse(rest);
      Assoc(NameField(r.hostname), NameField(r.username), r.left);
      assert body == AuthBody(r.hostname, r.username) + r.left;
    }
    forall h, u, t | ValidName(h) && ValidName(u) && body == AuthBody(h, u) + t
      ensures r == AuthRead(true, h, u, t)
    {
      AcceptsEncoded(h, u, t, h0, u0);
    }
  }

  /**
   * On the request of a client whose names fit their length fields, the verdict is whether both
   * names are valid; the host name is stored either way, and an accepted body is read to its end.
   */
  lemma ClientRequestVerdict(h: seq<byte>, u: seq<byte>, h0: seq<byte>, u0: seq<byte>)
    requires |h| < 0x1_0000 && |u| < 0x1_0000
    ensures var r := ReadAuth(AuthBody(h, u), h0, u0);
            && (r.ok <==> ValidName(h) && ValidName(u))
            && r.hostname == h
            && r.username == (if ValidName(h) then u else u0)
            && (r.ok ==> r.left == [])
  {
    ReadNameOfField(h, NameField(u));
    if ValidName(h) {
      AcceptsEncoded(h, u, [], h0, u0);
      assert AuthBody(h, u) + [] == AuthBody(h, u);
    }
  }

  /** The names stored are the client's own, and accepted, exactly when both are valid: of any length. */
  lemma OwnNamesAcceptedExactlyWhen(h: seq<byte>, u: seq<byte>, h0: seq<byte>, u0: seq<byte>)
    ensures ReadAuth(AuthBody(h, u), h0, u0) == AuthRead(true, h, u, []) <==> ValidName(h) && ValidName(u)
  {
    if ValidName(h) && ValidName(u) {
      ClientRequestVerdict(h, u, h0, u0);
    }
    var r := ReadAuth(AuthBody(h, u), h0, u0);
    assert r.ok ==> ValidName(r.hostname) && ValidName(r.username);
  }

  /**
   * The length field of a user name keeps its low 16 bits: of a longer name the server reads that
   * many bytes and leaves the rest unread.  A host name always fits its field.
   */
  lemma LongUserNameRead(h: seq<byte>, u: seq<byte>, h0: seq<byte>, u0: seq<byte>)
    requires |h| < 0x1_0000
    ensures var r := ReadAuth(AuthBody(h, u), h0, u0); var n := |u| % 0x1_0000;
            && (r.ok <==> ValidName(h) && ValidName(u[..n]))
            && (r.ok ==> r == AuthRead(true, h, u[..n], u[n..]))
  {
    var n := |u| % 0x1_0000;
    assert u == u[..n] + u[n..];
    Assoc(Be16(|u|), u[..n], u[n..]);
    assert AuthBody(h, u) == NameField(h) + (NameField(u[..n]) + u[n..]);
    ReadNameOfField(h, NameField(u[..n]) + u[n..]);
    ReadNameOfField(u[..n], u[n..]);
  }

  /**
   * A client's request is accepted under names that are not its own exactly when its user name
   * overflows the length field and what the field leaves of it is valid.
   */
  lemma MisreadExactlyWhen(h: seq<byte>, u: seq<byte>, h0: seq<byte>, u0: seq<byte>)
    requires |h| < 0x1_0000
    ensures var r := ReadAuth(AuthBody(h, u), h0, u0);
            (r.ok && !(r.hostname == h && r.username == u)) <==>
            (|u| >= 0x1_0000 && ValidName(h) && ValidName(u[..|u| % 0x1_0000]))
  {
    LongUserNameRead(h, u, h0, u0);
  }

  /** Behind the host name `h0`, no user name is reached, or the one stored already. */
  predicate KeepsUser(rest: seq<byte>, h0: seq<byte>, u0: seq<byte>) {
    ValidName(h0) && ReadName(rest).Name? ==> ReadName(rest).name == u0
  }

  /**
   * Names are stored before they are judged, so a refused request keeps the old pair of names
   * exactly when what it stored is what was there, or when it ended before it named a host.
   */
  lemma RefusalKeepsNamesExactlyWhen(body: seq<byte>, h0: seq<byte>, u0: seq<byte>)
    requires !ReadAuth(body, h0, u0).ok
    ensures (ReadAuth(body, h0, u0).hostname == h0 && ReadAuth(body, h0, u0).username == u0)
       <==> (ReadName(body).Name? ==> ReadName(body).name == h0 && KeepsUser(ReadName(body).left, h0, u0))
  {
  }

  /** A session under the names (h0, u0) can be left under a host name it never authenticated with. */
  lemma RefusalCanOverwriteHost(h: seq<byte>, h0: seq<byte>, u0: seq<byte>)
    requires ValidName(h) && h != h0
    ensures var r := ReadAuth(AuthBody(h, []), h0, u0); !r.ok && r.hostname != h0
  {
    ClientRequestVerdict(h, [], h0, u0);
  }
}
