/**
  Picking a free user name for a first OAuth login (internal/service/auth.go,
  HandleOAuthLogin): the cleaned name, then numbered variants of its first twenty
  characters, then a random name.
*/
module UsernameSearch {
  import opened Text

  const MAX_LOOKUPS := 50

  predicate IsNameChar(c: char) {
    'a' <= c <= 'z' || 'A' <= c <= 'Z' || '0' <= c <= '9' || c == '_'
  }

  /** ^[a-zA-Z0-9_]{3,30}$ */
  predicate ValidUsername(s: string) {
    3 <= |s| <= 30 && forall i | 0 <= i < |s| :: IsNameChar(s[i])
  }

  /** The first eight characters of a UUID. */
  predicate IsHex8(s: string) {
    |s| == 8 && forall i | 0 <= i < |s| :: '0' <= s[i] <= '9' || 'a' <= s[i] <= 'f'
  }

  function RandomName(hex: string): string {
    "user_" + hex
  }

  lemma RandomNameValid(hex: string)
    requires IsHex8(hex)
    ensures ValidUsername(RandomName(hex))
  {
    var s := RandomName(hex);
    forall i | 0 <= i < |s| ensures IsNameChar(s[i]) {
      assert i >= 5 ==> s[i] == hex[i - 5];
    }
  }

  function Base(name: string): string {
    name[..if |name| < 20 then |name| else 20]
  }

  /** The k-th name looked up: the name itself, then base_1, base_2, ... */
  function Candidate(name: string, k: nat): string {
    if k == 0 then name else Base(name) + "_" + Decimal(k)
  }

  lemma CandidateValid(name: string, k: nat)
    requires ValidUsername(name) && k < MAX_LOOKUPS
    ensures ValidUsername(Candidate(name, k))
  {
    if k > 0 {
      DecimalLength(k);
      var s, b := Candidate(name, k), Base(name);
      forall i | 0 <= i < |s| ensures IsNameChar(s[i]) {
        if i < |b| {
          assert s[i] == name[i];
        } else if i > |b| {
          assert s[i] == Decimal(k)[i - |b| - 1] && IsDigit(s[i]);
        }
      }
    }
  }

  /** Twenty characters of the name at most, an underscore and a number below fifty. */
  ghost predicate Numbered(name: string, variant: string) {
    exists k: nat | 1 <= k < 50 :: variant == name[..if |name| < 20 then |name| else 20] + "_" + Decimal(k)
  }

  lemma CandidateIs(name: string, k: nat)
    requires k < MAX_LOOKUPS
    ensures Candidate(name, k) == name || Numbered(name, Candidate(name, k))
  {}

  /** The name before the search: what the provider sent, lowered, or a random one if that is no user name. */
  function Cleaned(sent: string, hex: string): string {
    var s := ToLower(TrimSpace(sent));
    if ValidUsername(s) then s else RandomName(hex)
  }

  /**
    taken holds the names in use; a lookup that fails for another reason counts as
    taken, as it does in the service.
  */
  method ChooseUsername(sent: string, hex: string, lastHex: string, taken: set<string>)
    returns (name: string, ghost lookups: nat)
    requires IsHex8(hex) && IsHex8(lastHex)
    ensures lookups <= MAX_LOOKUPS
    ensures ValidUsername(name)
    ensures var c := Cleaned(sent, hex);
            if forall k: nat | k < MAX_LOOKUPS :: Candidate(c, k) in taken
            then name == RandomName(lastHex) && lookups == MAX_LOOKUPS
            else exists k: nat | k < MAX_LOOKUPS ::
                   && name == Candidate(c, k) && name !in taken && lookups == k + 1
                   && forall j: nat | j < k :: Candidate(c, j) in taken
    ensures var s := ToLower(TrimSpace(sent));
            var c := if ValidUsername(s) then s else "user_" + hex;
            && (c !in taken ==> name == c)
            && (name == c || Numbered(c, name) || name == "user_" + lastHex)
    ensures name in taken ==> name == "user_" + lastHex
  {
    var cleanUsername := ToLower(TrimSpace(sent));
    if !ValidUsername(cleanUsername) {
      cleanUsername := "user_" + hex;
      RandomNameValid(hex);
    }
    var originalUsername := cleanUsername;
    assert originalUsername == Cleaned(sent, hex);
    var counter := 1;
    lookups := 0;
    while true
      invariant 1 <= counter <= MAX_LOOKUPS && lookups == counter - 1
      invariant cleanUsername == Candidate(originalUsername, counter - 1)
      invariant forall j: nat | j < counter - 1 :: Candidate(originalUsername, j) in taken
      decreases MAX_LOOKUPS - counter
    {
      lookups := lookups + 1;
      if cleanUsername !in taken {
        CandidateValid(originalUsername, counter - 1);
        CandidateIs(originalUsername, counter - 1);
        break;
      }
      var cut := if |originalUsername| < 20 then |originalUsername| else 20;
      cleanUsername := originalUsername[..cut] + "_" + Decimal(counter);
      counter := counter + 1;
      if counter > 50 {
        cleanUsername := "user_" + lastHex;
        RandomNameValid(lastHex);
        break;
      }
    }
    name := cleanUsername;
  }
}
