/** pingback/services/status_slug.py: reserved words, validation, and the allocation of one slug per user
    under the UNIQUE index on `users.status_page_slug`. */
module SlugAllocation {
  import opened Tables
  import opened Slugs

  const RESERVED: set<string> := {
    "admin", "api", "app", "billing", "dashboard", "debug", "digest",
    "favicon", "health", "healthz", "login", "logout", "monitor", "monitors",
    "pingback", "pricing", "privacy", "refund", "reset-password",
    "settings", "signup", "static", "status", "support", "terms", "verify"
  }

  datatype Verdict = Acceptable | Missing | TooShort | TooLong | BadShape | Reserved

  function Validate(candidate: string): Verdict {
    if candidate == "" then Missing
    else if |candidate| < MIN_LEN then TooShort
    else if |candidate| > MAX_LEN then TooLong
    else if !Matches(candidate) then BadShape
    else if candidate in RESERVED then Reserved
    else Acceptable
  }

  /** A slug the public page can be served under. */
  predicate Proper(s: string) {
    WellFormed(s) && MIN_LEN <= |s| <= MAX_LEN && s !in RESERVED
  }

  /** `validate_slug` accepts the proper slugs and, because of `$`, a well-formed text with one final
      newline. */
  lemma ValidateAccepts(s: string)
    ensures Validate(s) == Acceptable && s[|s| - 1] != '\n' <==> Proper(s)
    ensures Validate(s) == Acceptable && !Proper(s) <==>
            MIN_LEN <= |s| <= MAX_LEN && s[|s| - 1] == '\n' && WellFormed(s[..|s| - 1])
  {
    GrammarIsWellFormed(s);
    if s in RESERVED {
      ReservedEnds(s);
    }
  }

  lemma ReservedEnds(s: string)
    requires s in RESERVED
    ensures s != "" && s[|s| - 1] != '\n'
  {
  }

  lemma ReservedAreShort(s: string)
    requires s in RESERVED
    ensures MIN_LEN <= |s| <= 14
  {
  }

  // ---------------------------------------------------------------- ids

  predicate HexDigit(c: char) {
    '0' <= c <= '9' || 'a' <= c <= 'f'
  }

  /** `user_id.replace('-', '')` */
  function WithoutHyphens(s: string): string {
    if s == "" then ""
    else (if s[0] == '-' then "" else [s[0]]) + WithoutHyphens(s[1..])
  }

  /** The textual form of a UUID: 32 hexadecimal digits once the hyphens are gone. */
  predicate IsUuid(id: string) {
    |WithoutHyphens(id)| == 32 && forall i :: 0 <= i < 32 ==> HexDigit(WithoutHyphens(id)[i])
  }

  function IdPrefix(id: string, n: nat): string {
    Take(WithoutHyphens(id), n)
  }

  // ---------------------------------------------------------------- candidates

  /** Everything before the first '@'. */
  function LocalPart(email: string): string {
    if email == "" || email[0] == '@' then "" else [email[0]] + LocalPart(email[1..])
  }

  /** `_seed_for`: the name, else the local part of the email, else the id. */
  function SeedFor(name: Option<string>, email: Option<string>, id: string): string {
    var fromName := Slugify(name.GetOr(""));
    var fromEmail := Slugify(LocalPart(email.GetOr("")));
    if |fromName| >= MIN_LEN then fromName
    else if |fromEmail| >= MIN_LEN then fromEmail
    else "page-" + IdPrefix(id, 8)
  }

  /** A reserved seed is moved aside. */
  function Nudged(seed: string): string {
    if seed in RESERVED then seed + "-page" else seed
  }

  function SuffixLength(k: nat): nat
    requires 1 <= k <= 4
  {
    if k == 1 then 6 else if k == 2 then 8 else if k == 3 then 12 else 24
  }

  function Suffixed(seed: string, id: string, n: nat): string
    requires n < MAX_LEN
  {
    Strip(Take(seed, MAX_LEN - n - 1) + "-" + IdPrefix(id, n))
  }

  /** The k-th entry of `candidates`: the seed, then the seed with 6, 8, 12 and 24 digits. */
  function Listed(seed: string, id: string, k: nat): string
    requires k <= 4
  {
    if k == 0 then seed else Suffixed(seed, id, SuffixLength(k))
  }

  /** The k-th candidate as the loop tests it. */
  function Candidate(seed: string, id: string, k: nat): string
    requires k <= 4
  {
    Strip(Take(Listed(seed, id, k), MAX_LEN))
  }

  function LastResort(id: string): string {
    "page-" + IdPrefix(id, 24)
  }

  predicate Usable(slug: string, taken: set<string>) {
    Validate(slug) == Acceptable && slug !in taken
  }

  /** The first usable candidate from the k-th on, else the last resort. */
  function FirstUsable(seed: string, id: string, taken: set<string>, k: nat): string
    requires k <= 5
    decreases 5 - k
  {
    if k == 5 then LastResort(id)
    else if Usable(Candidate(seed, id, k), taken) then Candidate(seed, id, k)
    else FirstUsable(seed, id, taken, k + 1)
  }

  function Seed(name: Option<string>, email: Option<string>, id: string): string {
    Nudged(SeedFor(name, email, id))
  }

  function Generated(name: Option<string>, email: Option<string>, id: string, taken: set<string>): string {
    FirstUsable(Seed(name, email, id), id, taken, 0)
  }

  method ListCandidates(seed: string, id: string) returns (candidates: seq<string>)
    ensures |candidates| == 5 && forall k :: 0 <= k <= 4 ==> candidates[k] == Listed(seed, id, k)
  {
    candidates := [seed];
    for k := 1 to 5
      invariant |candidates| == k
      invariant forall j :: 0 <= j < k ==> candidates[j] == Listed(seed, id, j)
    {
      candidates := candidates + [Suffixed(seed, id, SuffixLength(k))];
    }
  }

  /** `generate_unique_slug`: lists the candidates, then scans them. */
  method GenerateUniqueSlug(name: Option<string>, email: Option<string>, id: string, taken: set<string>)
    returns (slug: string)
    ensures slug == Generated(name, email, id, taken)
  {
    var seed := Nudged(SeedFor(name, email, id));
    var candidates := ListCandidates(seed, id);
    for k := 0 to 5
      invariant FirstUsable(seed, id, taken, k) == FirstUsable(seed, id, taken, 0)
    {
      var candidate := Strip(Take(candidates[k], MAX_LEN));
      if Usable(candidate, taken) {
        return candidate;
      }
    }
    slug := LastResort(id);
  }

  // ---------------------------------------------------------------- which candidates are proper

  /** What every seed is: slug characters, a front that is no hyphen, and a hyphen at the end only when
      it was cut at 32. */
  predicate SeedShape(s: string) {
    && Hyphenated(s) && MIN_LEN <= |s| <= MAX_LEN && s !in RESERVED
    && (|s| < MAX_LEN ==> s[|s| - 1] != '-')
  }

  lemma PageSlug(id: string, n: nat)
    requires IsUuid(id) && 0 < n <= 24
    ensures WellFormed("page-" + IdPrefix(id, n)) && |"page-" + IdPrefix(id, n)| == n + 5
  {
    var s := "page-" + IdPrefix(id, n);
    assert forall i :: 5 <= i < |s| ==> s[i] == WithoutHyphens(id)[i - 5];
  }

  lemma PageSlugIsFree(id: string, n: nat)
    requires IsUuid(id) && 8 <= n <= 24
    ensures "page-" + IdPrefix(id, n) !in RESERVED
  {
    var s := "page-" + IdPrefix(id, n);
    PageSlug(id, n);
    assert s[4] == '-';
    if s in RESERVED {
      HyphenInReserved(s, 4);
    }
  }

  /** The only hyphen in a reserved word is the one of "reset-password". */
  lemma HyphenInReserved(s: string, k: nat)
    requires s in RESERVED && k < |s| && s[k] == '-'
    ensures s == "reset-password" && k == 5
  {
    ReservedAreShort(s);
  }

  lemma SeedHasShape(name: Option<string>, email: Option<string>, id: string)
    requires IsUuid(id)
    ensures SeedShape(Seed(name, email, id))
  {
    SlugifyShape(name.GetOr(""));
    SlugifyShape(LocalPart(email.GetOr("")));
    PageSlug(id, 8);
    PageSlugIsFree(id, 8);
    var seed := SeedFor(name, email, id);
    if seed in RESERVED {
      ReservedAreShort(seed);
      NudgedIsFree(seed);
    }
  }

  lemma NudgedIsFree(seed: string)
    requires seed in RESERVED && Hyphenated(seed) && seed[|seed| - 1] != '-'
    ensures SeedShape(seed + "-page")
  {
    ReservedAreShort(seed);
    var s := seed + "-page";
    assert s[|seed|] == '-';
    assert s[|seed| + 1] == 'p' && s[|seed| + 2] == 'a' && s[|seed| + 3] == 'g' && s[|seed| + 4] == 'e';
    if s in RESERVED {
      HyphenInReserved(s, |seed|);
      assert false;
    }
  }

  lemma {:induction false} StripNothing(s: string)
    requires s == "" || (s[0] != '-' && s[|s| - 1] != '-')
    ensures Strip(s) == s
  {
  }

  /** The seed itself always passes validation, so it is what a user gets whenever it is free. */
  lemma SeedIsProper(seed: string, id: string)
    requires SeedShape(seed)
    ensures Proper(Candidate(seed, id, 0))
    ensures Candidate(seed, id, 0) == seed || Candidate(seed, id, 0) == seed[..MAX_LEN - 1]
  {
    if seed[|seed| - 1] != '-' {
      StripNothing(seed);
    } else {
      var cut := seed[..|seed| - 1];
      assert seed[|seed| - 2] != '-';
      assert StripLeft(seed) == seed && StripRight(seed) == StripRight(cut) == cut;
      SlugCharsPart(seed, 0, |cut|);
      assert seed[0..|cut|] == cut;
      if cut in RESERVED {
        ReservedAreShort(cut);
        assert false;
      }
    }
  }

  lemma TailOfUuid(id: string, n: nat)
    requires IsUuid(id) && n <= 32
    ensures |IdPrefix(id, n)| == n && forall i :: 0 <= i < n ==> HexDigit(IdPrefix(id, n)[i])
  {
    assert forall i :: 0 <= i < n ==> IdPrefix(id, n)[i] == WithoutHyphens(id)[i];
  }

  /** A suffixed candidate fails validation exactly when the seed is cut right after one of its hyphens:
      the hyphen of the suffix then doubles it. */
  lemma SuffixIsProperIff(seed: string, id: string, k: nat)
    requires SeedShape(seed) && IsUuid(id) && 1 <= k <= 4
    ensures Proper(Candidate(seed, id, k)) <==>
            (|seed| >= MAX_LEN - SuffixLength(k) - 1 ==> seed[MAX_LEN - SuffixLength(k) - 2] != '-')
    ensures Candidate(seed, id, k)
         == Take(seed, MAX_LEN - SuffixLength(k) - 1) + "-" + IdPrefix(id, SuffixLength(k))
  {
    var n := SuffixLength(k);
    var head := Take(seed, MAX_LEN - n - 1);
    var tail := IdPrefix(id, n);
    var s := head + "-" + tail;
    TailOfUuid(id, n);
    TakeShape(seed, MAX_LEN - n - 1);
    assert s[0] == seed[0] != '-';
    assert s[|s| - 1] == tail[n - 1];
    StripNothing(s);
    SuffixShape(head, tail);
    SuffixIsFree(head, tail);
  }

  lemma SuffixShape(head: string, tail: string)
    requires Hyphenated(head) && head != "" && tail != ""
    requires forall i :: 0 <= i < |tail| ==> HexDigit(tail[i])
    ensures WellFormed(head + "-" + tail) <==> head[|head| - 1] != '-'
  {
    var s := head + "-" + tail;
    assert forall i :: 0 <= i < |head| ==> s[i] == head[i];
    assert s[|head|] == '-';
    assert forall i :: |head| < i < |s| ==> s[i] == tail[i - |head| - 1];
    if head[|head| - 1] == '-' {
      assert s[|head| - 1] == '-' && s[|head| - 1 + 1] == '-';
    }
  }

  lemma SuffixIsFree(head: string, tail: string)
    requires |tail| >= 6 && forall i :: 0 <= i < |tail| ==> HexDigit(tail[i])
    ensures head + "-" + tail !in RESERVED
  {
    var s := head + "-" + tail;
    assert s[|head|] == '-' && s[|head| + 1] == tail[0];
    if s in RESERVED {
      HyphenInReserved(s, |head|);
      assert false;
    }
  }

  /** Only the last resort can be taken. */
  lemma {:induction false} FirstUsableOrigin(seed: string, id: string, taken: set<string>, k: nat)
    requires k <= 5
    ensures var slug := FirstUsable(seed, id, taken, k);
            slug == LastResort(id) ||
            (Usable(slug, taken) && exists j :: k <= j <= 4 && slug == Candidate(seed, id, j))
    decreases 5 - k
  {
    if k == 5 || Usable(Candidate(seed, id, k), taken) {
    } else {
      FirstUsableOrigin(seed, id, taken, k + 1);
    }
  }

  predicate Held(seed: string, id: string, taken: set<string>, k: nat)
    requires k <= 4
  {
    Proper(Candidate(seed, id, k)) ==> Candidate(seed, id, k) in taken
  }

  /** Every proper candidate is held by somebody. */
  predicate Exhausted(seed: string, id: string, taken: set<string>) {
    forall k :: 0 <= k <= 4 ==> Held(seed, id, taken, k)
  }

  lemma SuffixEndsInDigit(seed: string, id: string, k: nat)
    requires SeedShape(seed) && IsUuid(id) && 1 <= k <= 4
    ensures Candidate(seed, id, k) != "" && HexDigit(Candidate(seed, id, k)[|Candidate(seed, id, k)| - 1])
  {
    var n := SuffixLength(k);
    var s, tail := Candidate(seed, id, k), IdPrefix(id, n);
    SuffixIsProperIff(seed, id, k);
    TailOfUuid(id, n);
    assert s[|s| - 1] == tail[n - 1];
  }

  lemma ValidCandidateIsProper(seed: string, id: string, k: nat)
    requires SeedShape(seed) && IsUuid(id) && k <= 4
    ensures Validate(Candidate(seed, id, k)) == Acceptable <==> Proper(Candidate(seed, id, k))
  {
    ValidateAccepts(Candidate(seed, id, k));
    if k == 0 {
      SeedIsProper(seed, id);
    } else {
      SuffixEndsInDigit(seed, id, k);
    }
  }

  lemma LastResortIsProper(id: string)
    requires IsUuid(id)
    ensures Proper(LastResort(id))
  {
    PageSlug(id, 24);
    PageSlugIsFree(id, 24);
  }

  lemma FirstUsableIsProper(seed: string, id: string, taken: set<string>)
    requires SeedShape(seed) && IsUuid(id)
    ensures Proper(FirstUsable(seed, id, taken, 0))
  {
    LastResortIsProper(id);
    FirstUsableOrigin(seed, id, taken, 0);
    var slug := FirstUsable(seed, id, taken, 0);
    if slug != LastResort(id) {
      var j :| 0 <= j <= 4 && slug == Candidate(seed, id, j);
      ValidCandidateIsProper(seed, id, j);
    }
  }

  lemma {:induction false} TakenMeansHeld(seed: string, id: string, taken: set<string>, k: nat, j: nat)
    requires SeedShape(seed) && IsUuid(id) && k <= j <= 4 && FirstUsable(seed, id, taken, k) in taken
    ensures Held(seed, id, taken, j)
    decreases j - k
  {
    if k == j {
      ValidCandidateIsProper(seed, id, k);
    } else {
      TakenMeansHeld(seed, id, taken, k + 1, j);
    }
  }

  lemma TakenMeansExhausted(seed: string, id: string, taken: set<string>)
    requires SeedShape(seed) && IsUuid(id) && FirstUsable(seed, id, taken, 0) in taken
    ensures FirstUsable(seed, id, taken, 0) == LastResort(id) && Exhausted(seed, id, taken)
  {
    FirstUsableOrigin(seed, id, taken, 0);
    forall k | 0 <= k <= 4 ensures Held(seed, id, taken, k) {
      TakenMeansHeld(seed, id, taken, 0, k);
    }
  }

  lemma {:induction false} ExhaustedMeansLastResort(seed: string, id: string, taken: set<string>, k: nat)
    requires SeedShape(seed) && IsUuid(id) && Exhausted(seed, id, taken) && k <= 5
    ensures FirstUsable(seed, id, taken, k) == LastResort(id)
    decreases 5 - k
  {
    if k == 5 {
    } else {
      ValidCandidateIsProper(seed, id, k);
      assert Held(seed, id, taken, k);
      ExhaustedMeansLastResort(seed, id, taken, k + 1);
    }
  }

  /** For every UUID the generated slug is proper, and a free seed is taken as it is. The result is taken
      already exactly when every proper candidate and the unchecked last resort are held by somebody. */
  lemma GeneratedIsProper(name: Option<string>, email: Option<string>, id: string, taken: set<string>)
    requires IsUuid(id)
    ensures var slug := Generated(name, email, id, taken);
            Proper(slug) && Validate(slug) == Acceptable
    ensures var seed := Seed(name, email, id);
            Candidate(seed, id, 0) !in taken ==> Generated(name, email, id, taken) == Candidate(seed, id, 0)
    ensures Generated(name, email, id, taken) in taken <==>
            Exhausted(Seed(name, email, id), id, taken) && LastResort(id) in taken
  {
    SeedHasShape(name, email, id);
    var seed := Seed(name, email, id);
    SeedIsProper(seed, id);
    ValidateAccepts(Candidate(seed, id, 0));
    FirstUsableIsProper(seed, id, taken);
    ValidateAccepts(Generated(name, email, id, taken));
    if Generated(name, email, id, taken) in taken {
      TakenMeansExhausted(seed, id, taken);
    } else if Exhausted(seed, id, taken) {
      ExhaustedMeansLastResort(seed, id, taken, 0);
    }
  }
}
