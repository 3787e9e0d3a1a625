/** `src/config/provider.rs`: the cloud provider selector and its
    case-insensitive parser. */
module ConfigProvider {
  import opened Wrappers
  import opened Text

  datatype Provider = Aws

  /** `Provider::from_str`: the ASCII-lowercased input must be exactly
      "aws"; otherwise the error quotes the input as given. */
  function FromStr(s: string): (r: Result<Provider, string>)
  {
    if AsciiLower(s) == "aws" then Success(Aws)
    else Failure("unsupported provider: " + s)
  }

  /** The spellings of "aws" in any ASCII letter case, and nothing else:
      no surrounding whitespace, no other characters. */
  predicate SpellsAws(s: string)
  {
    && |s| == 3
    && (s[0] == 'a' || s[0] == 'A')
    && (s[1] == 'w' || s[1] == 'W')
    && (s[2] == 's' || s[2] == 'S')
  }

  lemma LowerCharIs(c: char, lower: char, upper: char)
    requires 'a' <= lower <= 'z' && upper as int == lower as int - 32
    ensures LowerChar(c) == lower <==> c == lower || c == upper
  {
  }

  /** The parser accepts exactly the spellings of "aws" in any letter case,
      and rejects everything else with a message quoting the original
      input. */
  lemma FromStrAccepts(s: string)
    ensures FromStr(s).Success? <==> SpellsAws(s)
    ensures FromStr(s).Success? ==> FromStr(s).value == Aws
    ensures FromStr(s).Failure? ==> FromStr(s).error == "unsupported provider: " + s
  {
    if |s| == 3 {
      LowerCharIs(s[0], 'a', 'A');
      LowerCharIs(s[1], 'w', 'W');
      LowerCharIs(s[2], 's', 'S');
      if SpellsAws(s) {
        assert AsciiLower(s) == "aws";
      }
      if AsciiLower(s) == "aws" {
        var l := AsciiLower(s);
        assert l[0] == "aws"[0] && l[1] == "aws"[1] && l[2] == "aws"[2];
        assert LowerChar(s[0]) == 'a' && LowerChar(s[1]) == 'w' && LowerChar(s[2]) == 's';
      }
    } else {
      assert |AsciiLower(s)| != |"aws"|;
    }
  }

  /** Lowercasing twice is lowercasing once. */
  lemma AsciiLowerIdempotent(s: string)
    ensures AsciiLower(AsciiLower(s)) == AsciiLower(s)
  {
  }

  /** Parsing is case-insensitive: a string and its lowercase form are both
      accepted or both rejected, and accepted ones give the same provider.
      (Rejection messages differ, since they quote the input.) */
  lemma FromStrCaseInsensitive(s: string)
    ensures FromStr(s).Success? <==> FromStr(AsciiLower(s)).Success?
    ensures FromStr(s).Success? ==> FromStr(s) == FromStr(AsciiLower(s))
  {
    AsciiLowerIdempotent(s);
  }

  /** The input is not trimmed: a padded "aws" is rejected. */
  lemma FromStrDoesNotTrim()
    ensures FromStr(" aws") == Failure("unsupported provider: " + " aws")
    ensures FromStr("aws\n").Failure?
  {
    FromStrAccepts(" aws");
    FromStrAccepts("aws\n");
  }

  /** The deserializer error of serde that the model needs: a custom error
      from the string deserializer, or `invalid_value` with the unexpected
      string and the expectation text. */
  datatype DeError = Custom(msg: string) | InvalidValue(unexpectedStr: string, expected: string)

  /** `deserialize_provider`: deserialize a string (`input`), then parse it,
      turning a parse failure into `invalid_value`. */
  function DeserializeProvider(input: Result<string, DeError>): (r: Result<Provider, DeError>)
    ensures r.Success? <==> input.Success? && SpellsAws(input.value)
    ensures r.Success? ==> r.value == Aws
    ensures input.Failure? ==> r == Failure(input.error)
    ensures input.Success? && !SpellsAws(input.value) ==>
              r == Failure(InvalidValue(input.value, "unsupported provider: " + input.value))
  {
    match input
    case Failure(e) => Failure(e)
    case Success(s) =>
      FromStrAccepts(s);
      match FromStr(s)
      case Success(p) => Success(p)
      case Failure(msg) => Failure(InvalidValue(s, msg))
  }
}
