/** Which slug a user ends up with: the name comes before the email, the email before the id, and the first
    candidate that nobody holds before the later ones. */
module SlugChoices {
  import opened Tables
  import opened Slugs
  import opened SlugAllocation
  import opened SlugTable

  predicate Free(slug: string, taken: set<string>) {
    Proper(slug) && slug !in taken
  }

  /** The local part of an email is everything before its first '@'. */
  lemma {:induction false} LocalPartIs(email: string)
    ensures LocalPart(email) <= email && '@' !in LocalPart(email)
    ensures |LocalPart(email)| < |email| ==> email[|LocalPart(email)|] == '@'
  {
    if email == "" || email[0] == '@' {
    } else {
      LocalPartIs(email[1..]);
      assert email == [email[0]] + email[1..];
    }
  }

  predicate SameButCase(a: char, b: char) {
    a == b || ('A' <= a <= 'Z' && b as int == a as int + 32) || ('A' <= b <= 'Z' && a as int == b as int + 32)
  }

  /** Upper and lower case make no difference to a slug. */
  lemma CaseIsIgnored(a: string, b: string)
    requires |a| == |b| && forall i :: 0 <= i < |a| ==> SameButCase(a[i], b[i])
    ensures Slugify(a) == Slugify(b)
  {
    assert LowerAll(a) == LowerAll(b);
  }

  // ---------------------------------------------------------------- the first free candidate

  lemma {:induction false} FirstFreeFrom(seed: string, id: string, taken: set<string>, j: nat, k: nat)
    requires SeedShape(seed) && IsUuid(id) && j <= k <= 4 && Free(Candidate(seed, id, k), taken)
    requires forall i :: j <= i < k ==> !Free(Candidate(seed, id, i), taken)
    ensures FirstUsable(seed, id, taken, j) == Candidate(seed, id, k)
    decreases k - j
  {
    ValidCandidateIsProper(seed, id, j);
    if j == k {
    } else {
      FirstFreeFrom(seed, id, taken, j + 1, k);
    }
  }

  /** The seed, then the seed with ever more digits of the id: the first that is free is taken. */
  lemma TakesFirstFree(name: Option<string>, email: Option<string>, id: string, taken: set<string>, k: nat)
    requires IsUuid(id) && k <= 4
    requires var seed := Seed(name, email, id);
             Free(Candidate(seed, id, k), taken) && forall i :: 0 <= i < k ==> !Free(Candidate(seed, id, i), taken)
    ensures Generated(name, email, id, taken) == Candidate(Seed(name, email, id), id, k)
  {
    SeedHasShape(name, email, id);
    FirstFreeFrom(Seed(name, email, id), id, taken, 0, k);
  }

  lemma ProperSeed(seed: string, id: string)
    requires Proper(seed)
    ensures Candidate(seed, id, 0) == seed
  {
    StripNothing(seed);
  }

  lemma SeedIsTaken(name: Option<string>, email: Option<string>, id: string, taken: set<string>)
    requires IsUuid(id) && Free(Seed(name, email, id), taken)
    ensures Generated(name, email, id, taken) == Seed(name, email, id)
  {
    ProperSeed(Seed(name, email, id), id);
    TakesFirstFree(name, email, id, taken, 0);
  }

  // ---------------------------------------------------------------- name, email, id

  /** Whoever has a name that makes a free slug gets that slug, whatever the email. */
  lemma NameComesFirst(name: string, email: Option<string>, id: string, taken: set<string>)
    requires IsUuid(id) && Free(Slugify(name), taken)
    ensures Generated(Some(name), email, id, taken) == Slugify(name)
  {
    SeedIsTaken(Some(name), email, id, taken);
  }

  /** A reserved name is moved aside. */
  lemma ReservedNameMoves(name: string, email: Option<string>, id: string, taken: set<string>)
    requires IsUuid(id) && Slugify(name) in RESERVED && Free(Slugify(name) + "-page", taken)
    ensures Generated(Some(name), email, id, taken) == Slugify(name) + "-page"
  {
    ReservedAreShort(Slugify(name));
    SeedIsTaken(Some(name), email, id, taken);
  }

  /** Without a name of three slug characters, the local part of the email decides. */
  lemma EmailComesNext(name: Option<string>, email: string, id: string, taken: set<string>)
    requires IsUuid(id) && |Slugify(name.GetOr(""))| < 3 && Free(Slugify(LocalPart(email)), taken)
    ensures Generated(name, Some(email), id, taken) == Slugify(LocalPart(email))
  {
    SeedIsTaken(name, Some(email), id, taken);
  }

  /** Without either, the first eight digits of the id do. */
  lemma IdComesLast(name: Option<string>, email: Option<string>, id: string, taken: set<string>)
    requires IsUuid(id) && |Slugify(name.GetOr(""))| < 3 && |Slugify(LocalPart(email.GetOr("")))| < 3
    requires Free("page-" + WithoutHyphens(id)[..8], taken)
    ensures Generated(name, email, id, taken) == "page-" + WithoutHyphens(id)[..8]
  {
    PageSlugIsFree(id, 8);
    SeedIsTaken(name, email, id, taken);
  }

  // ---------------------------------------------------------------- the requests

  /** Nothing the generator would try for the user is left. */
  predicate AllHeld(t: Table, id: string, name: Option<string>, email: Option<string>) {
    Exhausted(Seed(name, email, id), id, Taken(t)) && LastResort(id) in Taken(t)
  }

  /** A sign-up goes through, with a proper slug that nobody had, unless nothing is left. */
  lemma RegisterDecides(t: Table, id: string, name: Option<string>, email: Option<string>)
    requires IsUuid(id) && id !in t
    ensures var u := Step(t, Register(id, name, email));
            if AllHeld(t, id, name, email) then u == t
            else
              && u.Keys == t.Keys + {id} && (forall a :: a in t ==> u[a] == t[a])
              && u[id].name == name && u[id].email == email
              && u[id].slug.Some? && Free(u[id].slug.value, Taken(t))
  {
    GeneratedIsProper(name, email, id, Taken(t));
  }

  /** Assigning: a slug that is there is returned; a missing one is made, proper and new, unless nothing is
      left; and nobody else is written to. */
  lemma AssignDecides(t: Table, id: string, name: Option<string>, email: Option<string>)
    requires IsUuid(id) && id in t && t[id].slug != Some("")
    ensures var (u, slug) := Assigned(t, id, name, email);
            if t[id].slug.Some? then u == t && slug == t[id].slug
            else if AllHeld(t, id, name, email) then u == t && slug == None
            else slug.Some? && Free(slug.value, Taken(t)) && u == t[id := t[id].(slug := slug)]
  {
    GeneratedIsProper(name, email, id, Taken(t));
  }

  /** The settings form stores the stripped and lowered text exactly when it is proper and nobody else has it. */
  lemma ChoiceDecides(t: Table, id: string, text: string)
    requires id in t
    ensures var u := Step(t, Choose(id, text));
            u == if Proper(Chosen(text)) && (forall a :: a in t && a != id ==> t[a].slug != Some(Chosen(text)))
                 then t[id := t[id].(slug := Some(Chosen(text)))] else t
  {
    ChosenIsProperIff(text);
  }

  /** What the form makes of the text: blanks at its two ends go, and the rest is in lower case. */
  lemma ChosenText(text: string) returns (i: nat, j: nat)
    ensures i <= j <= |text| && |Chosen(text)| == j - i
    ensures forall k :: 0 <= k < i || j <= k < |text| ==> Blank(text[k])
    ensures i < j ==> !Blank(text[i]) && !Blank(text[j - 1])
    ensures forall k :: 0 <= k < j - i ==> SameButCase(Chosen(text)[k], text[i + k]) && !('A' <= Chosen(text)[k] <= 'Z')
  {
    i, j := StripsBlankEnds(text);
    assert forall k :: 0 <= k < j - i ==> StripBlanks(text)[k] == text[i + k];
  }

  /** What is cut off the text are blanks at its two ends. */
  lemma {:induction false} StripsBlankEnds(s: string) returns (i: nat, j: nat)
    ensures i <= j <= |s| && StripBlanks(s) == s[i..j]
    ensures forall k :: 0 <= k < i || j <= k < |s| ==> Blank(s[k])
    ensures i < j ==> !Blank(s[i]) && !Blank(s[j - 1])
  {
    if s == "" {
      i, j := 0, 0;
    } else if Blank(s[0]) {
      i, j := StripsBlankEnds(s[1..]);
      assert s[1..][i..j] == s[i + 1..j + 1];
      assert forall k :: 0 < k < |s| ==> s[k] == s[1..][k - 1];
      i, j := i + 1, j + 1;
    } else if Blank(s[|s| - 1]) {
      i, j := StripsBlankEnds(s[..|s| - 1]);
      assert s[..|s| - 1][i..j] == s[i..j];
    } else {
      i, j := 0, |s|;
    }
  }
}
