/**
 The role claims of the trusted ingress: a comma-separated header becomes a short list of distinct, well-formed,
 lower-case roles, and feeding that list back changes nothing.
 */
module RoleClaims {
  import opened Common

  /** A header as the server sees it: absent, one value, or several. */
  datatype Header = Absent | One(value: string) | Many(values: seq<string>)

  datatype Claim = Claim(text: string)

  const MAX_CLAIMS: nat := 20
  const MAX_HEADER: nat := 1024

  function TrimStart(s: string): (t: string)
    ensures |t| <= |s|
  {
    if s != "" && Space(s[0]) then TrimStart(s[1..]) else s
  }

  function TrimEnd(s: string): (t: string)
    ensures |t| <= |s|
  {
    if s != "" && Space(s[|s| - 1]) then TrimEnd(s[..|s| - 1]) else s
  }

  function Trim(s: string): string {
    TrimEnd(TrimStart(s))
  }

  predicate Control(c: char) {
    c as int <= 31 || c as int == 127
  }

  predicate HasControl(s: string) {
    exists i :: 0 <= i < |s| && Control(s[i])
  }

  function SafeHeader(header: Header, maxLength: nat): Option<string> {
    var value :=
      match header
      case Absent => None
      case One(v) => Some(v)
      case Many(vs) => if vs == [] then None else Some(vs[0]);
    if value.None? then None
    else
      var trimmed := Trim(value.value);
      if trimmed == "" || |trimmed| > maxLength || HasControl(trimmed) then None
      else Some(trimmed)
  }

  predicate RoleChar(c: char) {
    'a' <= c <= 'z' || '0' <= c <= '9' || c == '-'
  }

  predicate WellFormed(c: Claim) {
    && 1 <= |c.text| <= 64 && 'a' <= c.text[0] <= 'z'
    && forall i :: 0 <= i < |c.text| ==> RoleChar(c.text[i])
  }

  /** The pieces between commas; one more than there are commas. */
  function Split(s: string): (claims: seq<Claim>)
    ensures claims != []
  {
    if s == "" then [Claim("")]
    else
      var rest := Split(s[1..]);
      if s[0] == ',' then [Claim("")] + rest else [Claim([s[0]] + rest[0].text)] + rest[1..]
  }

  function Join(claims: seq<Claim>): string
    requires claims != []
  {
    if |claims| == 1 then claims[0].text else claims[0].text + "," + Join(claims[1..])
  }

  function Normal(c: Claim): Claim {
    Claim(Lower(Trim(c.text)))
  }

  function WellFormedOnly(claims: seq<Claim>): seq<Claim> {
    if claims == [] then []
    else
      var role := Normal(claims[|claims| - 1]);
      WellFormedOnly(claims[..|claims| - 1]) + (if WellFormed(role) then [role] else [])
  }

  function Unique(claims: seq<Claim>): seq<Claim> {
    if claims == [] then []
    else
      var before, last := Unique(claims[..|claims| - 1]), claims[|claims| - 1];
      if last in before then before else before + [last]
  }

  function AtMost(claims: seq<Claim>, n: nat): seq<Claim> {
    if |claims| <= n then claims else claims[..n]
  }

  /** The roles that a raw header lists. */
  function Roles(raw: string): seq<Claim> {
    AtMost(Unique(WellFormedOnly(Split(raw))), MAX_CLAIMS)
  }

  function TrustedRoleClaims(header: Header): Option<string> {
    var raw := SafeHeader(header, MAX_HEADER);
    if raw.None? || Roles(raw.value) == [] then None else Some(Join(Roles(raw.value)))
  }

  // Order and distinctness.

  /** Where `c` first occurs. */
  function FirstIndex(claims: seq<Claim>, c: Claim): (k: nat)
    requires c in claims
    ensures k < |claims| && claims[k] == c && forall i :: 0 <= i < k ==> claims[i] != c
  {
    if claims[0] == c then 0
    else
      assert claims == [claims[0]] + claims[1..];
      1 + FirstIndex(claims[1..], c)
  }

  lemma FirstIndexUnique(claims: seq<Claim>, c: Claim, k: nat)
    requires k < |claims| && claims[k] == c && forall i :: 0 <= i < k ==> claims[i] != c
    ensures FirstIndex(claims, c) == k
  {
    var j := FirstIndex(claims, c);
    assert claims[j] == c;
  }

  lemma FirstIndexPrefix(claims: seq<Claim>, last: Claim, c: Claim)
    requires c in claims
    ensures FirstIndex(claims + [last], c) == FirstIndex(claims, c)
  {
    var k := FirstIndex(claims, c);
    FirstIndexUnique(claims + [last], c, k);
  }

  /** The same claims, none twice, in the order of their first occurrences. */
  ghost predicate FirstOccurrences(claims: seq<Claim>, u: seq<Claim>) {
    && (forall c :: c in u <==> c in claims)
    && (forall i, j :: 0 <= i < j < |u| ==> u[i] != u[j] && FirstIndex(claims, u[i]) < FirstIndex(claims, u[j]))
  }

  lemma {:induction false} UniqueKeepsOrder(claims: seq<Claim>)
    ensures FirstOccurrences(claims, Unique(claims))
  {
    if claims != [] {
      var init, last := claims[..|claims| - 1], claims[|claims| - 1];
      assert claims == init + [last];
      UniqueKeepsOrder(init);
      var before, u := Unique(init), Unique(claims);
      forall i, j | 0 <= i < j < |u|
        ensures u[i] != u[j] && FirstIndex(claims, u[i]) < FirstIndex(claims, u[j])
      {
        assert u[i] in before && u[i] in init;
        FirstIndexPrefix(init, last, u[i]);
        if j < |before| {
          assert u[j] in before;
          FirstIndexPrefix(init, last, u[j]);
        } else {
          FirstIndexUnique(claims, last, |init|);
        }
      }
    }
  }

  lemma {:induction false} WellFormedOnlyMembers(claims: seq<Claim>)
    ensures forall i :: 0 <= i < |WellFormedOnly(claims)| ==> WellFormed(WellFormedOnly(claims)[i])
  {
    if claims != [] {
      WellFormedOnlyMembers(claims[..|claims| - 1]);
    }
  }

  /** The roles are well-formed, distinct, at most twenty, and the first ones the header lists. */
  lemma RolesListed(raw: string)
    ensures var listed, roles := WellFormedOnly(Split(raw)), Roles(raw);
            && |roles| <= MAX_CLAIMS
            && (forall i :: 0 <= i < |roles| ==> WellFormed(roles[i]))
            && (exists rest :: FirstOccurrences(listed, roles + rest) && (|roles| < MAX_CLAIMS ==> rest == []))
  {
    var listed := WellFormedOnly(Split(raw));
    WellFormedOnlyMembers(Split(raw));
    UniqueKeepsOrder(listed);
    var u, roles := Unique(listed), Roles(raw);
    var rest := u[|roles|..];
    assert u == roles + rest;
    hide FirstOccurrences, WellFormed;
    forall i | 0 <= i < |roles|
      ensures WellFormed(roles[i])
    {
      MembersListed(listed, u, i);
    }
  }

  lemma MembersListed(listed: seq<Claim>, u: seq<Claim>, i: nat)
    requires FirstOccurrences(listed, u) && i < |u|
    ensures exists k :: 0 <= k < |listed| && listed[k] == u[i]
  {
    assert u[i] in u;
  }

  // Length: the list never outgrows the header it came from.

  /** Every claim with the comma after it. */
  function Weight(claims: seq<Claim>): nat {
    if claims == [] then 0 else Weight(claims[..|claims| - 1]) + |claims[|claims| - 1].text| + 1
  }

  lemma {:induction false} WeightFront(claims: seq<Claim>)
    requires claims != []
    ensures Weight(claims) == |claims[0].text| + 1 + Weight(claims[1..])
  {
    if |claims| > 1 {
      var init := claims[..|claims| - 1];
      WeightFront(init);
      assert claims[1..][..|claims| - 2] == init[1..];
    }
  }

  lemma {:induction false} JoinWeight(claims: seq<Claim>)
    requires claims != []
    ensures |Join(claims)| + 1 == Weight(claims)
  {
    WeightFront(claims);
    if |claims| > 1 {
      JoinWeight(claims[1..]);
    }
  }

  lemma {:induction false} SplitWeight(s: string)
    ensures Weight(Split(s)) == |s| + 1
  {
    if s == "" {
      WeightFront(Split(s));
    } else {
      SplitWeight(s[1..]);
      var rest := Split(s[1..]);
      WeightFront(rest);
      WeightFront(Split(s));
      assert ([Claim("")] + rest)[1..] == rest;
    }
  }

  lemma {:induction false} WellFormedOnlyWeight(claims: seq<Claim>)
    ensures Weight(WellFormedOnly(claims)) <= Weight(claims)
  {
    if claims != [] {
      var init, last := claims[..|claims| - 1], claims[|claims| - 1];
      WellFormedOnlyWeight(init);
      assert WellFormedOnly(init) + [] == WellFormedOnly(init);
      assert |Normal(last).text| <= |last.text|;
      WeightAppend(WellFormedOnly(init), Normal(last));
    }
  }

  lemma WeightAppend(claims: seq<Claim>, c: Claim)
    ensures Weight(claims + [c]) == Weight(claims) + |c.text| + 1
  {
    assert (claims + [c])[..|claims|] == claims;
  }

  lemma {:induction false} UniqueWeight(claims: seq<Claim>)
    ensures Weight(Unique(claims)) <= Weight(claims)
  {
    if claims != [] {
      UniqueWeight(claims[..|claims| - 1]);
      WeightAppend(Unique(claims[..|claims| - 1]), claims[|claims| - 1]);
    }
  }

  lemma {:induction false} PrefixWeight(claims: seq<Claim>, n: nat)
    requires n <= |claims|
    ensures Weight(claims[..n]) <= Weight(claims)
  {
    if n < |claims| {
      PrefixWeight(claims[..|claims| - 1], n);
      assert claims[..|claims| - 1][..n] == claims[..n];
    } else {
      assert claims[..n] == claims;
    }
  }

  /** The list of roles is no longer than the header. */
  lemma NeverOutgrows(raw: string)
    requires Roles(raw) != []
    ensures |Join(Roles(raw))| <= |raw|
  {
    var listed := WellFormedOnly(Split(raw));
    SplitWeight(raw);
    WellFormedOnlyWeight(Split(raw));
    UniqueWeight(listed);
    if |Unique(listed)| > MAX_CLAIMS {
      PrefixWeight(Unique(listed), MAX_CLAIMS);
    }
    JoinWeight(Roles(raw));
  }

  // Feeding the list back.

  predicate NoComma(s: string) {
    forall i :: 0 <= i < |s| ==> s[i] != ','
  }

  lemma {:induction false} SplitOne(s: string)
    requires NoComma(s)
    ensures Split(s) == [Claim(s)]
  {
    if s != "" {
      SplitOne(s[1..]);
      assert [s[0]] + s[1..] == s;
    }
  }

  lemma {:induction false} SplitFirst(s: string, rest: string)
    requires NoComma(s)
    ensures Split(s + "," + rest) == [Claim(s)] + Split(rest)
  {
    var all := s + "," + rest;
    if s == "" {
      assert all[1..] == rest;
    } else {
      SplitFirst(s[1..], rest);
      assert all[1..] == s[1..] + "," + rest;
      assert [s[0]] + s[1..] == s;
    }
  }

  /** Splitting a joined list gives the list back. */
  lemma {:induction false} SplitJoin(claims: seq<Claim>)
    requires claims != [] && forall i :: 0 <= i < |claims| ==> NoComma(claims[i].text)
    ensures Split(Join(claims)) == claims
  {
    if |claims| == 1 {
      SplitOne(claims[0].text);
    } else {
      SplitJoin(claims[1..]);
      SplitFirst(claims[0].text, Join(claims[1..]));
    }
  }

  lemma NormalFixed(c: Claim)
    requires WellFormed(c)
    ensures Normal(c) == c
  {
    assert RoleChar(c.text[0]) && RoleChar(c.text[|c.text| - 1]);
    assert Trim(c.text) == c.text;
    assert Lower(c.text) == c.text;
  }

  lemma WellFormedOnlyStep(claims: seq<Claim>)
    requires claims != [] && WellFormed(claims[|claims| - 1])
    ensures WellFormedOnly(claims) == WellFormedOnly(claims[..|claims| - 1]) + [claims[|claims| - 1]]
  {
    NormalFixed(claims[|claims| - 1]);
    hide Normal, WellFormed;
  }

  lemma {:induction false} WellFormedOnlyFixed(claims: seq<Claim>)
    requires forall i :: 0 <= i < |claims| ==> WellFormed(claims[i])
    ensures WellFormedOnly(claims) == claims
  {
    hide Normal, WellFormed;
    if claims != [] {
      WellFormedOnlyFixed(claims[..|claims| - 1]);
      WellFormedOnlyStep(claims);
      hide WellFormedOnly;
      assert claims == claims[..|claims| - 1] + [claims[|claims| - 1]];
    }
  }

  lemma {:induction false} UniqueFixed(claims: seq<Claim>)
    requires forall i, j :: 0 <= i < j < |claims| ==> claims[i] != claims[j]
    ensures Unique(claims) == claims
  {
    if claims != [] {
      UniqueFixed(claims[..|claims| - 1]);
      assert claims == claims[..|claims| - 1] + [claims[|claims| - 1]];
    }
  }

  predicate ListChar(c: char) {
    RoleChar(c) || c == ','
  }

  lemma {:induction false} JoinChars(claims: seq<Claim>)
    requires claims != [] && forall i :: 0 <= i < |claims| ==> WellFormed(claims[i])
    ensures var s := Join(claims);
            s != "" && RoleChar(s[0]) && RoleChar(s[|s| - 1]) && forall i :: 0 <= i < |s| ==> ListChar(s[i])
  {
    assert WellFormed(claims[0]);
    if |claims| > 1 {
      JoinChars(claims[1..]);
    }
  }

  lemma SafeAgain(s: string)
    requires s != "" && |s| <= MAX_HEADER && RoleChar(s[0]) && RoleChar(s[|s| - 1])
    requires forall i :: 0 <= i < |s| ==> ListChar(s[i])
    ensures SafeHeader(One(s), MAX_HEADER) == Some(s)
  {
    assert Trim(s) == s;
    forall i | 0 <= i < |s|
      ensures !Control(s[i])
    {
      assert ListChar(s[i]);
    }
  }

  lemma SafeHeaderBound(header: Header)
    ensures SafeHeader(header, MAX_HEADER).Some? ==> |SafeHeader(header, MAX_HEADER).value| <= MAX_HEADER
  {
  }

  lemma RolesDistinct(raw: string)
    ensures forall i, j :: 0 <= i < j < |Roles(raw)| ==> Roles(raw)[i] != Roles(raw)[j]
  {
    UniqueKeepsOrder(WellFormedOnly(Split(raw)));
  }

  lemma RolesFixed(roles: seq<Claim>)
    requires roles != [] && |roles| <= MAX_CLAIMS
    requires forall i :: 0 <= i < |roles| ==> WellFormed(roles[i])
    requires forall i, j :: 0 <= i < j < |roles| ==> roles[i] != roles[j]
    ensures Roles(Join(roles)) == roles
  {
    forall i | 0 <= i < |roles|
      ensures NoComma(roles[i].text)
    {
      RoleHasNoComma(roles[i]);
    }
    hide NoComma, WellFormed, Split, Join, WellFormedOnly, Unique;
    SplitJoin(roles);
    WellFormedOnlyFixed(roles);
    UniqueFixed(roles);
  }

  lemma RoleHasNoComma(role: Claim)
    requires WellFormed(role)
    ensures NoComma(role.text)
  {
  }

  /** Idempotence: a list of role claims that the proxy forwarded passes it unchanged. */
  lemma ClaimsIdempotent(header: Header)
    requires TrustedRoleClaims(header).Some?
    ensures TrustedRoleClaims(One(TrustedRoleClaims(header).value)) == TrustedRoleClaims(header)
  {
    SafeHeaderBound(header);
    var raw := SafeHeader(header, MAX_HEADER).value;
    hide SafeHeader;
    var roles := Roles(raw);
    NeverOutgrows(raw);
    RolesListed(raw);
    RolesDistinct(raw);
    hide Roles, WellFormed, ListChar, RoleChar;
    RolesFixed(roles);
    JoinChars(roles);
    SafeAgain(Join(roles));
  }

  // What a claim is, said of the header's text alone.

  lemma LongerBlanks(c: char, blanks: string)
    requires Space(c) && BlankOnly(Space, blanks)
    ensures BlankOnly(Space, [c] + blanks) && BlankOnly(Space, blanks + [c])
  {
    hide Space;
  }

  lemma Reattached(c: char, before: string, core: string, after: string)
    ensures [c] + (before + core) == ([c] + before) + core
    ensures (core + after) + [c] == core + (after + [c])
  {
  }

  lemma {:induction false} TrimStartFinds(s: string) returns (before: string)
    ensures BlankOnly(Space, before) && s == before + TrimStart(s)
    ensures TrimStart(s) != "" ==> !Space(TrimStart(s)[0])
  {
    if s != "" && Space(s[0]) {
      assert s == [s[0]] + s[1..] && TrimStart(s) == TrimStart(s[1..]);
      hide Space, TrimStart, BlankOnly;
      var rest := TrimStartFinds(s[1..]);
      LongerBlanks(s[0], rest);
      Reattached(s[0], rest, TrimStart(s), "");
      before := [s[0]] + rest;
    } else {
      before := "";
    }
  }

  lemma {:induction false} TrimEndFinds(s: string) returns (after: string)
    ensures BlankOnly(Space, after) && s == TrimEnd(s) + after
    ensures TrimEnd(s) != "" ==> !Space(TrimEnd(s)[|TrimEnd(s)| - 1]) && TrimEnd(s)[0] == s[0]
  {
    if s != "" && Space(s[|s| - 1]) {
      assert s == s[..|s| - 1] + [s[|s| - 1]] && TrimEnd(s) == TrimEnd(s[..|s| - 1]);
      hide Space, TrimEnd, BlankOnly;
      var rest := TrimEndFinds(s[..|s| - 1]);
      LongerBlanks(s[|s| - 1], rest);
      Reattached(s[|s| - 1], "", TrimEnd(s), rest);
      after := rest + [s[|s| - 1]];
    } else {
      after := "";
    }
  }

  /** Trimming finds the one core that neither begins nor ends with white space. */
  lemma TrimIff(s: string, core: string)
    ensures Trim(s) == core <==> Tidy(Space, core) && Padded(Space, s, core)
  {
    var before := TrimStartFinds(s);
    var after := TrimEndFinds(TrimStart(s));
    hide TrimStart, TrimEnd, Space;
    assert s == before + Trim(s) + after;
    assert PaddedBy(Space, s, before, Trim(s), after);
    assert Tidy(Space, Trim(s));
    if Tidy(Space, core) && Padded(Space, s, core) {
      PaddedOnce(Space, s, core, Trim(s));
    }
  }

  /** The value that counts: the only one, or the first of several. */
  predicate FirstValue(header: Header, value: string) {
    header == One(value) || (header.Many? && header.values != [] && header.values[0] == value)
  }

  /** Fit to be forwarded: not empty, not too long, and no control characters. */
  predicate Printable(text: string, maxLength: nat) {
    && text != "" && |text| <= maxLength
    && forall i :: 0 <= i < |text| ==> text[i] as int >= 32 && text[i] as int != 127
  }

  ghost predicate Passes(value: string, maxLength: nat, text: string) {
    Padded(Space, value, text) && Tidy(Space, text) && Printable(text, maxLength)
  }

  lemma OneValueIff(value: string, maxLength: nat, text: string)
    ensures SafeHeader(One(value), maxLength) == Some(text) <==> Passes(value, maxLength, text)
  {
    hide Trim, Space, Tidy, Padded;
    TrimIff(value, text);
    assert !HasControl(text) <==> forall i :: 0 <= i < |text| ==> !Control(text[i]);
  }

  lemma FirstOfMany(header: Header, maxLength: nat)
    ensures header.Many? && header.values != [] ==>
      SafeHeader(header, maxLength) == SafeHeader(One(header.values[0]), maxLength)
    ensures header.Absent? || header == Many([]) ==> SafeHeader(header, maxLength).None?
  {
    hide Trim, HasControl;
  }

  /** A header passes if and only if its value, without the white space around it, is fit to be forwarded. */
  lemma SafeHeaderIff(header: Header, maxLength: nat, text: string)
    ensures SafeHeader(header, maxLength) == Some(text) <==>
            exists value :: FirstValue(header, value) && Passes(value, maxLength, text)
  {
    hide SafeHeader, Passes;
    FirstOfMany(header, maxLength);
    if value :| FirstValue(header, value) {
      OneValueIff(value, maxLength, text);
    } else {
      assert header.One? ==> FirstValue(header, header.value);
      assert header.Many? && header.values != [] ==> FirstValue(header, header.values[0]);
    }
  }

  /** A piece names a role: white space around it aside, it spells the role in letters of either case. */
  ghost predicate Names(piece: string, role: string) {
    exists core :: Padded(Space, piece, core) && Tidy(Space, core) && Spells(core, role)
  }

  lemma NormalIff(piece: string, role: string)
    ensures Normal(Claim(piece)) == Claim(role) <==> Names(piece, role)
  {
    hide Trim, Space, Tidy, Padded, Lower, Spells;
    TrimIff(piece, Trim(piece));
    SpellsLower(Trim(piece), role);
    if Names(piece, role) {
      var core :| Padded(Space, piece, core) && Tidy(Space, core) && Spells(core, role);
      TrimIff(piece, core);
    }
  }

  /** A role is a small letter and up to 63 more small letters, digits and hyphens. */
  lemma RoleShape(c: Claim)
    ensures WellFormed(c) <==>
            exists first: char, rest: string :: RoleText(c, first, rest)
  {
    if WellFormed(c) {
      forall i | 0 <= i < |c.text| - 1
        ensures 'a' <= c.text[1..][i] <= 'z' || '0' <= c.text[1..][i] <= '9' || c.text[1..][i] == '-'
      {
        assert RoleChar(c.text[i + 1]);
      }
      assert c.text == [c.text[0]] + c.text[1..];
      assert RoleText(c, c.text[0], c.text[1..]);
    }
    if first: char, rest: string :| RoleText(c, first, rest) {
      forall i | 0 <= i < |c.text|
        ensures RoleChar(c.text[i])
      {
        if i > 0 {
          assert c.text[i] == rest[i - 1];
        }
      }
    }
  }

  ghost predicate RoleText(c: Claim, first: char, rest: string) {
    && c.text == [first] + rest && 'a' <= first <= 'z' && |rest| <= 63
    && forall i :: 0 <= i < |rest| ==> 'a' <= rest[i] <= 'z' || '0' <= rest[i] <= '9' || rest[i] == '-'
  }

  /** Splitting cuts at every comma and nowhere else. */
  lemma {:induction false} SplitCuts(s: string)
    ensures Join(Split(s)) == s && forall i :: 0 <= i < |Split(s)| ==> NoComma(Split(s)[i].text)
  {
    if s != "" {
      SplitCuts(s[1..]);
      var rest := Split(s[1..]);
      assert s == [s[0]] + s[1..];
      if s[0] == ',' {
        assert ([Claim("")] + rest)[1..] == rest;
        assert "" + "," + Join(rest) == s;
      } else {
        JoinLonger(s[0], rest);
      }
    }
  }

  lemma JoinLonger(c: char, claims: seq<Claim>)
    requires claims != []
    ensures Join([Claim([c] + claims[0].text)] + claims[1..]) == [c] + Join(claims)
  {
    var longer := [Claim([c] + claims[0].text)] + claims[1..];
    if |claims| > 1 {
      assert longer[1..] == claims[1..];
      assert ([c] + claims[0].text) + "," + Join(claims[1..]) == [c] + (claims[0].text + "," + Join(claims[1..]));
    }
  }

  lemma {:induction false} ListedIff(claims: seq<Claim>, role: Claim)
    ensures role in WellFormedOnly(claims) <==>
            WellFormed(role) && NamedIn(claims, role)
  {
    hide WellFormed, Normal, Names;
    if claims != [] {
      var init, last := claims[..|claims| - 1], claims[|claims| - 1];
      ListedIff(init, role);
      NormalIff(last.text, role.text);
      if k :| 0 <= k < |claims| && Names(claims[k].text, role.text) {
        assert k < |init| ==> Names(init[k].text, role.text);
      }
    }
  }

  /** `pieces` is the text cut at its commas. */
  ghost predicate Cut(text: string, pieces: seq<Claim>) {
    pieces != [] && Join(pieces) == text && forall i :: 0 <= i < |pieces| ==> NoComma(pieces[i].text)
  }

  /**
   What is forwarded, told by the header's text: at most twenty roles, none twice, each a well-formed one that a piece
   of the header names, and every such one if there are fewer than twenty.
   */
  lemma ForwardedRoles(header: Header) returns (value: string, text: string, pieces: seq<Claim>, roles: seq<Claim>)
    requires TrustedRoleClaims(header).Some?
    ensures FirstValue(header, value) && Passes(value, 1024, text)
    ensures Cut(text, pieces)
    ensures roles != [] && |roles| <= 20 && TrustedRoleClaims(header) == Some(Join(roles))
    ensures forall i, j :: 0 <= i < j < |roles| ==> roles[i] != roles[j]
    ensures forall role :: role in roles ==> WellFormed(role) && NamedIn(pieces, role)
    ensures |roles| < 20 ==> forall role :: WellFormed(role) ==> (role in roles <==> NamedIn(pieces, role))
  {
    text := SafeHeader(header, MAX_HEADER).value;
    pieces, roles := Split(text), Roles(text);
    SafeHeaderIff(header, MAX_HEADER, text);
    value :| FirstValue(header, value) && Passes(value, MAX_HEADER, text);
    SplitCuts(text);
    assert TrustedRoleClaims(header) == Some(Join(roles)) && roles != [];
    RolesDistinct(text);
    RolesNamed(text);
    hide *;
  }

  ghost predicate NamedIn(pieces: seq<Claim>, role: Claim) {
    exists k :: 0 <= k < |pieces| && Names(pieces[k].text, role.text)
  }

  lemma RolesNamed(text: string)
    ensures |Roles(text)| <= 20
    ensures forall role :: role in Roles(text) ==> WellFormed(role) && NamedIn(Split(text), role)
    ensures |Roles(text)| < 20 ==>
      forall role :: WellFormed(role) ==> (role in Roles(text) <==> NamedIn(Split(text), role))
  {
    var listed := WellFormedOnly(Split(text));
    UniqueKeepsOrder(listed);
    hide WellFormed, Names, Split, Unique, WellFormedOnly;
    forall role
      ensures role in Unique(listed) <==> WellFormed(role) && NamedIn(Split(text), role)
    {
      ListedIff(Split(text), role);
    }
  }

  /** A piece of the text names a well-formed role. */
  ghost predicate NamesSome(pieces: seq<Claim>) {
    exists role: Claim, k :: WellFormed(role) && 0 <= k < |pieces| && Names(pieces[k].text, role.text)
  }

  lemma ListsSome(pieces: seq<Claim>)
    ensures WellFormedOnly(pieces) != [] <==> NamesSome(pieces)
  {
    hide WellFormed, Names, WellFormedOnly;
    var listed := WellFormedOnly(pieces);
    if listed != [] {
      assert listed[0] in listed;
      ListedIff(pieces, listed[0]);
    }
    if role: Claim, k :| WellFormed(role) && 0 <= k < |pieces| && Names(pieces[k].text, role.text) {
      ListedIff(pieces, role);
    }
  }

  /** The value passes as `text`, and one of its `pieces` names a role. */
  ghost predicate Offers(value: string, text: string, pieces: seq<Claim>) {
    Passes(value, 1024, text) && Cut(text, pieces) && NamesSome(pieces)
  }

  /** Something is forwarded if and only if the header passes and a piece of it names a well-formed role. */
  lemma ForwardedIff(header: Header)
    ensures TrustedRoleClaims(header).Some? <==>
            exists value, text, pieces :: FirstValue(header, value) && Offers(value, text, pieces)
  {
    hide SafeHeader, Passes, Split, Join, NoComma, NamesSome, WellFormedOnly, Unique;
    if SafeHeader(header, MAX_HEADER).Some? {
      var text := SafeHeader(header, MAX_HEADER).value;
      SafeHeaderIff(header, MAX_HEADER, text);
      SplitCuts(text);
      ListsSome(Split(text));
      UniqueKeepsOrder(WellFormedOnly(Split(text)));
      EmptyTogether(WellFormedOnly(Split(text)), Unique(WellFormedOnly(Split(text))));
      assert Cut(text, Split(text));
      var value :| FirstValue(header, value) && Passes(value, MAX_HEADER, text);
      assert NamesSome(Split(text)) ==> Offers(value, text, Split(text));
    }
    if value, text, pieces :| FirstValue(header, value) && Offers(value, text, pieces) {
      SafeHeaderIff(header, MAX_HEADER, text);
      SplitJoin(pieces);
    }
  }

  lemma EmptyTogether(a: seq<Claim>, b: seq<Claim>)
    requires forall c :: c in a <==> c in b
    ensures a == [] <==> b == []
  {
    if a != [] {
      assert a[0] in a;
    }
    if b != [] {
      assert b[0] in b;
    }
  }
}
