/**
 * basicAuth of internal/parser/work.go, which is also what `SetBasicAuth`
 * of net/http puts in the Authorization header: the credentials of the
 * Basic scheme of section 2 of RFC 7617, the base 64 encoding of section 4
 * of RFC 4648 of the user-id, a colon and the password.
 */
module Credentials {
  import opened Wrappers
  import opened Base64

  /** basicAuth: `user ":" password`, as bytes, base 64 encoded with padding. */
  function BasicAuth(username: string, password: string): (r: string)
    ensures |r| == 4 * ((|Utf8(username + ":" + password)| + 2) / 3)
  {
    EncodeLength(Utf8(username + ":" + password));
    Encode(Utf8(username + ":" + password))
  }

  /**
   * The credentials decode to the user's bytes, a colon and the password's
   * bytes; when the user-id holds no colon, as RFC 7617 demands, the first
   * colon of the decoded bytes is the one between them.
   */
  lemma BasicAuthDecodes(username: string, password: string)
    ensures Decode(BasicAuth(username, password)) == Some(Utf8(username) + [58] + Utf8(password))
    ensures ':' !in username ==> forall i :: 0 <= i < |Utf8(username)| ==> Utf8(username)[i] != 58
  {
    DecodeEncode(Utf8(username + ":" + password));
    Utf8Append(username + ":", password);
    Utf8Append(username, ":");
    assert Utf8(":") == [58];
    if ':' !in username {
      Utf8Above(username, 58);
    }
  }

  /** The quanta of `username:password`. */
  lemma SampleQuanta()
    ensures Quantum(117, 115, 101) == "dXNl" && Quantum(114, 110, 97) == "cm5h" && Quantum(109, 101, 58) == "bWU6"
  {
  }

  lemma SampleTail()
    ensures Quantum(112, 97, 115) == "cGFz" && Quantum(115, 119, 111) == "c3dv" && Encode(Utf8("rd")) == "cmQ="
  {
    var rd := "rd";
    assert Utf8(rd[1..]) == [100];
    assert Utf8(rd) == [114, 100];
  }

  /** `username:password` in three-character pieces, and its encoding in four-character ones. */
  lemma SamplePieces()
    ensures "username" + ":" + "password" == "use" + ("rna" + ("me:" + ("pas" + ("swo" + "rd"))))
    ensures "dXNlcm5hbWU6cGFzc3dvcmQ=" == "dXNl" + ("cm5h" + ("bWU6" + ("cGFz" + ("c3dv" + "cmQ="))))
  {
  }

  /** The credentials of user `username` with password `password`. */
  lemma BasicAuthSample()
    ensures BasicAuth("username", "password") == "dXNlcm5hbWU6cGFzc3dvcmQ="
  {
    SamplePieces();
    SampleQuanta();
    SampleTail();
    var r5 := "rd";
    var r4 := "swo" + r5;
    var r3 := "pas" + r4;
    var r2 := "me:" + r3;
    var r1 := "rna" + r2;
    AsciiQuantum("use", r1);
    AsciiQuantum("rna", r2);
    AsciiQuantum("me:", r3);
    AsciiQuantum("pas", r4);
    AsciiQuantum("swo", r5);
  }
}
