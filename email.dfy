/** validate_email, identical in both scripts: a full match of the pattern
    ^[a-zA-Z0-9_.+-]+@[a-zA-Z0-9-]+\.[a-zA-Z0-9-.]+$ against a string that
    has already been stripped (so '$' cannot stop before a final newline).
    The pattern is an ad hoc simplification, not the address grammar of
    RFC 5322. */
module Email {
  import opened Text

  /** [a-zA-Z0-9_.+-]: the characters of the local part. */
  predicate IsLocalChar(c: char) {
    IsAlnumChar(c) || c == '_' || c == '.' || c == '+' || c == '-'
  }

  /** [a-zA-Z0-9-]: the characters of the first domain label. */
  predicate IsLabelChar(c: char) {
    IsAlnumChar(c) || c == '-'
  }

  /** [a-zA-Z0-9-.]: the characters after the first dot of the domain. */
  predicate IsTailChar(c: char) {
    IsAlnumChar(c) || c == '-' || c == '.'
  }

  predicate LocalPart(t: string) {
    |t| > 0 && forall k :: 0 <= k < |t| ==> IsLocalChar(t[k])
  }

  predicate DomainLabel(t: string) {
    |t| > 0 && forall k :: 0 <= k < |t| ==> IsLabelChar(t[k])
  }

  predicate DomainTail(t: string) {
    |t| > 0 && forall k :: 0 <= k < |t| ==> IsTailChar(t[k])
  }

  /** D+ "." R+: the part after the '@'. */
  ghost predicate DomainPattern(d: string) {
    exists dot :: 0 <= dot < |d| && d[dot] == '.' && DomainLabel(d[..dot]) && DomainTail(d[dot + 1..])
  }

  /** The language of the pattern, L+ "@" D+ "." R+. */
  ghost predicate EmailPattern(s: string) {
    exists at :: 0 <= at < |s| && s[at] == '@' && LocalPart(s[..at]) && DomainPattern(s[at + 1..])
  }

  /** Matches D+ "." R+ by looking at the first '.' only. */
  function MatchDomain(d: string): (ok: bool)
    ensures ok <==> DomainPattern(d)
  {
    var dot := IndexOf(d, '.');
    MatchDomainIsPattern(d);
    dot < |d| && DomainLabel(d[..dot]) && DomainTail(d[dot + 1..])
  }

  /** The matcher: since none of the three classes holds '@' and the label
      class holds no '.', the '@' is the first one and the '.' is the first
      one after it, so one left-to-right search decides the match. */
  function ValidateEmail(s: string): (ok: bool)
    ensures ok <==> EmailPattern(s)
  {
    var at := IndexOf(s, '@');
    MatchEmailIsPattern(s);
    at < |s| && LocalPart(s[..at]) && MatchDomain(s[at + 1..])
  }

  /** A label of D holds no '.', so any split that fits the pattern is the
      one at the first '.'. */
  lemma MatchDomainIsPattern(d: string)
    ensures var dot := IndexOf(d, '.');
            (dot < |d| && DomainLabel(d[..dot]) && DomainTail(d[dot + 1..])) <==> DomainPattern(d)
  {
    var dot := IndexOf(d, '.');
    if dot < |d| && DomainLabel(d[..dot]) && DomainTail(d[dot + 1..]) {
      DomainSplitAt(d, dot);
    }
    if DomainPattern(d) {
      var p :| 0 <= p < |d| && d[p] == '.' && DomainLabel(d[..p]) && DomainTail(d[p + 1..]);
      FirstDotEndsLabel(d, p);
    }
  }

  lemma DomainSplitAt(d: string, dot: nat)
    requires dot < |d| && d[dot] == '.' && DomainLabel(d[..dot]) && DomainTail(d[dot + 1..])
    ensures DomainPattern(d)
  {
  }

  lemma FirstDotEndsLabel(d: string, p: nat)
    requires p < |d| && d[p] == '.' && DomainLabel(d[..p])
    ensures IndexOf(d, '.') == p
  {
    forall j | 0 <= j < p ensures d[j] != '.' {
      assert IsLabelChar(d[..p][j]);
    }
    FirstOccurrence(d, '.', p);
  }

  /** A local part holds no '@', so any split that fits the pattern is the
      one at the first '@'. */
  lemma MatchEmailIsPattern(s: string)
    ensures var at := IndexOf(s, '@');
            (at < |s| && LocalPart(s[..at]) && DomainPattern(s[at + 1..])) <==> EmailPattern(s)
  {
    var at := IndexOf(s, '@');
    if at < |s| && LocalPart(s[..at]) && DomainPattern(s[at + 1..]) {
      EmailSplitAt(s, at);
    }
    if EmailPattern(s) {
      var p :| 0 <= p < |s| && s[p] == '@' && LocalPart(s[..p]) && DomainPattern(s[p + 1..]);
      FirstAtEndsLocalPart(s, p);
    }
  }

  lemma EmailSplitAt(s: string, at: nat)
    requires at < |s| && s[at] == '@' && LocalPart(s[..at]) && DomainPattern(s[at + 1..])
    ensures EmailPattern(s)
  {
  }

  lemma FirstAtEndsLocalPart(s: string, p: nat)
    requires p < |s| && s[p] == '@' && LocalPart(s[..p])
    ensures IndexOf(s, '@') == p
  {
    forall j | 0 <= j < p ensures s[j] != '@' {
      assert IsLocalChar(s[..p][j]);
    }
    FirstOccurrence(s, '@', p);
  }

  /** A local part, an '@' and a domain make an address of the pattern. */
  lemma AddressOfParts(user: string, domain: string)
    requires LocalPart(user) && DomainPattern(domain)
    ensures EmailPattern(user + "@" + domain)
  {
    var s := user + "@" + domain;
    assert s[..|user|] == user && s[|user| + 1..] == domain;
    EmailSplitAt(s, |user|);
  }

  /** A label, a '.' and a tail make a domain of the pattern. */
  lemma DomainOfParts(first: string, tail: string)
    requires DomainLabel(first) && DomainTail(tail)
    ensures DomainPattern(first + "." + tail)
  {
    var d := first + "." + tail;
    assert d[..|first|] == first && d[|first| + 1..] == tail;
    DomainSplitAt(d, |first|);
  }

  /** A dotted local part and a two-level domain fit the pattern, so the
      matcher accepts them. */
  lemma AcceptsDottedAddress()
    ensures EmailPattern("a.b_c" + "@" + ("sub" + "." + "example.com"))
  {
    var user := "a.b_c";
    assert IsLocalChar(user[0]) && IsLocalChar(user[1]) && IsLocalChar(user[2])
           && IsLocalChar(user[3]) && IsLocalChar(user[4]);
    var first, tail := "sub", "example.com";
    assert IsLabelChar(first[0]) && IsLabelChar(first[1]) && IsLabelChar(first[2]);
    assert forall k :: 0 <= k < |tail| ==> IsTailChar(tail[k]);
    DomainOfParts(first, tail);
    AddressOfParts(user, first + "." + tail);
  }

  /** Without an '@' nothing matches. */
  lemma RejectsMissingAt(s: string)
    requires forall k :: 0 <= k < |s| ==> s[k] != '@'
    ensures !ValidateEmail(s)
  {
  }

  /** After the '@' the domain needs a '.': an address whose local part holds
      no '@' and whose domain holds no '.' does not match. */
  lemma RejectsDomainWithoutDot(user: string, domain: string)
    requires forall k :: 0 <= k < |user| ==> user[k] != '@'
    requires forall k :: 0 <= k < |domain| ==> domain[k] != '.'
    ensures !EmailPattern(user + "@" + domain)
  {
    var s := user + "@" + domain;
    assert s[..|user|] == user;
    FirstOccurrence(s, '@', |user|);
    forall at | 0 <= at < |s| && s[at] == '@' && LocalPart(s[..at])
      ensures !DomainPattern(s[at + 1..])
    {
      FirstAtEndsLocalPart(s, at);
      assert s[at + 1..] == domain;
    }
  }
}
