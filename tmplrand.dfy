/**
 * The random values of tmpl/rand.go, by their shape. Every random source
 * is a parameter: `draws(k)` is the value behind the k-th `rand.Intn` of a
 * `randStringBytes` call, the UUID is what `uuid.NewRandom` produced (or
 * nothing when it failed), and the 63-bit integer is `rand.Int63()`.
 */
module TmplRand {
  import opened Wrappers
  import opened Text

  const MaxLengthEmailUserName: nat := 10
  const MaxLengthEmailDomain: nat := 5
  const MaxLengthString: nat := 10
  const LetterBytes: string := "abcdefghijklmnopqrstuvwxyz0123456789"

  /** The `k`-th letter of a random string: `letterBytes[rand.Intn(len(letterBytes))]`. */
  function Letter(draws: nat -> nat, k: nat): char {
    LetterBytes[draws(k) % |LetterBytes|]
  }

  /** The string `randStringBytes(n)` builds from its draws. */
  function Letters(n: nat, draws: nat -> nat): string {
    seq(n, k requires 0 <= k => Letter(draws, k))
  }

  /** randStringBytes: a byte slice of length `n`, filled one drawn letter at a time. */
  method RandStringBytes(n: nat, draws: nat -> nat) returns (s: string)
    ensures s == Letters(n, draws)
  {
    var b := new char[n];
    for i := 0 to n
      invariant forall k :: 0 <= k < i ==> b[k] == Letter(draws, k)
    {
      b[i] := LetterBytes[draws(i) % |LetterBytes|];
    }
    s := b[..];
  }

  /** A random string has the length asked for and only letters of `letterBytes`. */
  lemma LettersShape(n: nat, draws: nat -> nat)
    ensures |Letters(n, draws)| == n
    ensures forall k :: 0 <= k < n ==> Letters(n, draws)[k] in LetterBytes
  {
    forall k | 0 <= k < n ensures Letters(n, draws)[k] in LetterBytes {
      var j := draws(k) % |LetterBytes|;
      assert Letters(n, draws)[k] == LetterBytes[j];
    }
  }

  /** RandomEmail: ten letters, `@`, five letters and `.com`. */
  function RandomEmail(user: nat -> nat, domain: nat -> nat): string {
    Letters(MaxLengthEmailUserName, user) + "@" + Letters(MaxLengthEmailDomain, domain) + ".com"
  }

  /** RandomString: ten letters. */
  function RandomString(draws: nat -> nat): string {
    Letters(MaxLengthString, draws)
  }

  /** RandomRequest: the UUID's text with every `-` removed, or nothing when no UUID could be made. */
  function RandomRequest(uuid: Option<string>): string {
    match uuid
    case None => ""
    case Some(u) => ReplaceAll(u, "-", "")
  }

  /** RandomInteger: the decimal text of `rand.Int63()`. */
  function RandomInteger(v: nat): (s: string)
    requires v < 0x8000_0000_0000_0000
    ensures AllDigits(s) && DecimalToNat(s) == v
  {
    Itoa(v)
  }

  /** An e-mail address is 20 characters: letters, the only `@` at index 10, letters, `.com`. */
  lemma RandomEmailShape(user: nat -> nat, domain: nat -> nat)
    ensures var e := RandomEmail(user, domain);
      && |e| == 20 && e[10] == '@' && e[16..] == ".com"
      && (forall k :: 0 <= k < 10 || 11 <= k < 16 ==> e[k] in LetterBytes)
      && (forall k :: 0 <= k < 16 && k != 10 ==> e[k] != '@')
  {
    var u, d := Letters(10, user), Letters(5, domain);
    LettersShape(10, user);
    LettersShape(5, domain);
    var e := RandomEmail(user, domain);
    assert e == u + "@" + d + ".com";
    forall k | 0 <= k < 10 || 11 <= k < 16 ensures e[k] in LetterBytes {
      if k < 10 {
        assert e[k] == u[k];
      } else {
        assert e[k] == d[k - 11];
      }
    }
    assert '@' !in LetterBytes;
  }

  /** A random string is ten letters. */
  lemma RandomStringShape(draws: nat -> nat)
    ensures |RandomString(draws)| == 10
    ensures forall k :: 0 <= k < 10 ==> RandomString(draws)[k] in LetterBytes
  {
    LettersShape(10, draws);
  }

  /** The characters of `s` other than `-`, in order. */
  function WithoutDashes(s: string): (r: string)
    ensures '-' !in r && |r| <= |s|
  {
    if s == [] then []
    else if s[0] == '-' then WithoutDashes(s[1..])
    else [s[0]] + WithoutDashes(s[1..])
  }

  /** Replacing every `-` with nothing keeps exactly the other characters. */
  lemma {:induction false} RemoveDashes(s: string)
    ensures Replace(s, "-", "") == WithoutDashes(s)
    decreases |s|
  {
    if s != [] {
      assert OccursAt(s, "-", 0) <==> s[0] == '-' by {
        assert |s[0..1]| == 1 && s[0..1][0] == s[0];
      }
      RemoveDashes(s[1..]);
    }
  }

  /** A request ID holds no `-`: it is the UUID's text with the dashes dropped, or empty. */
  lemma RandomRequestShape(uuid: Option<string>)
    ensures RandomRequest(uuid) == (if uuid.None? then "" else WithoutDashes(uuid.value))
    ensures '-' !in RandomRequest(uuid)
  {
    if uuid.Some? {
      RemoveDashes(uuid.value);
    }
  }
}
