/** Misfin addresses (`crates/misfin/src/lib.rs`): the keys of mailboxes and pins. */
module MisfinAddress {
  import opened Text

  datatype Address = Address(mailbox: string, host: string)

  function LowerChar(c: char): char {
    if 'A' <= c <= 'Z' then c - 'A' + 'a' else c
  }

  /** `str::to_ascii_lowercase`. */
  function Lower(s: string): (t: string)
    ensures |t| == |s|
  {
    seq(|s|, i requires 0 <= i < |s| => LowerChar(s[i]))
  }

  function ParseAddress(input: string): Option<Address> {
    match SplitOnce(Trim(input), '@')
    case None => None
    case Some((mailbox, host)) =>
      if mailbox == "" || host == "" then None else Some(Address(mailbox, Lower(host)))
  }

  function AddrSpec(a: Address): string {
    a.mailbox + "@" + a.host
  }

  /** The parts of a parsed URL that matter here: its user name and its host. */
  datatype UrlParts = UrlParts(username: string, host: Option<string>)

  function FromUrl(url: UrlParts): Option<Address> {
    var mailbox := Trim(url.username);
    if mailbox == "" || url.host.None? then None else ParseAddress(mailbox + "@" + url.host.value)
  }

  /** What every parsed address looks like. */
  predicate IsParsed(a: Address) {
    && a.mailbox != "" && '@' !in a.mailbox && !IsWhitespace(a.mailbox[0])
    && a.host != "" && Lower(a.host) == a.host && !IsWhitespace(a.host[|a.host| - 1])
  }

  lemma LowerTwice(s: string)
    ensures Lower(Lower(s)) == Lower(s)
  {
  }

  lemma SpecIsTrimmed(a: Address)
    requires IsParsed(a)
    ensures IsTrimmed(AddrSpec(a))
  {
  }

  lemma ParsedIsParsed(input: string)
    requires ParseAddress(input).Some?
    ensures IsParsed(ParseAddress(input).value)
  {
    var trimmed := Trim(input);
    TrimFixesTrimmed(input);
    SplitOnceShape(trimmed, '@');
    var (mailbox, host) := SplitOnce(trimmed, '@').value;
    assert trimmed == mailbox + "@" + host;
    assert mailbox[0] == trimmed[0] && host[|host| - 1] == trimmed[|trimmed| - 1];
    LowerTwice(host);
    LowerKeepsWhitespace(host[|host| - 1]);
  }

  lemma LowerKeepsWhitespace(c: char)
    ensures IsWhitespace(LowerChar(c)) <==> IsWhitespace(c)
  {
  }

  /** The printed form of an address parses back to it if and only if the address is
      one that parsing can give. */
  lemma AddressRoundTrip(a: Address)
    ensures ParseAddress(AddrSpec(a)) == Some(a) <==> IsParsed(a)
  {
    if IsParsed(a) {
      SpecIsTrimmed(a);
      TrimFixesTrimmed(AddrSpec(a));
      SplitOnceUnique(a.mailbox, a.host, '@');
    }
    if ParseAddress(AddrSpec(a)) == Some(a) {
      ParsedIsParsed(AddrSpec(a));
    }
  }

  /** Distinct parsed addresses never share a key. */
  lemma KeysAreDistinct(a: Address, b: Address)
    requires IsParsed(a) && IsParsed(b)
    ensures AddrSpec(a) == AddrSpec(b) <==> a == b
  {
    AddressRoundTrip(a);
    AddressRoundTrip(b);
  }

  lemma FromUrlIsParsed(url: UrlParts)
    requires FromUrl(url).Some?
    ensures IsParsed(FromUrl(url).value)
  {
    ParsedIsParsed(Trim(url.username) + "@" + url.host.value);
  }

  /** Lower case, letter by letter: only A to Z change. */
  lemma LowerLetters(s: string, i: nat)
    requires i < |s|
    ensures Lower(s)[i] == if 'A' <= s[i] <= 'Z' then "abcdefghijklmnopqrstuvwxyz"[s[i] as int - 65] else s[i]
  {
    forall k | 0 <= k < 26 ensures "abcdefghijklmnopqrstuvwxyz"[k] == (97 + k) as char {
      Alphabet(k);
    }
  }

  lemma Alphabet(k: nat)
    requires k < 26
    ensures "abcdefghijklmnopqrstuvwxyz"[k] == (97 + k) as char
  {
  }

  /** A mailbox and a host, written with whitespace around them or not, are taken as they
      are, the host in lower case; the first @ divides them. */
  lemma AddressIsRead(mailbox: string, host: string, before: string, after: string)
    requires mailbox != "" && host != "" && '@' !in mailbox
    requires !IsWhitespace(mailbox[0]) && !IsWhitespace(host[|host| - 1])
    requires forall i :: 0 <= i < |before| ==> IsWhitespace(before[i])
    requires forall i :: 0 <= i < |after| ==> IsWhitespace(after[i])
    ensures ParseAddress(before + (mailbox + "@" + host) + after) == Some(Address(mailbox, Lower(host)))
  {
    TrimTakesWhitespace(before, mailbox + "@" + host, after);
    SplitOnceUnique(mailbox, host, '@');
  }

  /** What is no address: no @, or nothing on one side of the first. */
  lemma NoAddress(input: string)
    requires IsTrimmed(input)
    ensures ParseAddress(input).None? <==> '@' !in input || input[0] == '@' || forall i :: 0 <= i < |input| - 1 ==> input[i] != '@'
  {
    TrimFixesTrimmed(input);
    SplitOnceShape(input, '@');
    if SplitOnce(input, '@').Some? {
      var (mailbox, host) := SplitOnce(input, '@').value;
      assert input[|mailbox|] == '@';
      assert forall i :: 0 <= i < |mailbox| ==> input[i] == mailbox[i];
    }
  }

  /** A URL's plain user name and host are its address, the host in lower case; without
      either there is none. */
  lemma UrlIsRead(username: string, host: string)
    ensures username != "" && IsTrimmed(username) && '@' !in username && host != "" && !IsWhitespace(host[|host| - 1]) ==>
              FromUrl(UrlParts(username, Some(host))) == Some(Address(username, Lower(host)))
    ensures FromUrl(UrlParts(username, None)).None?
    ensures Trim(username) == "" ==> FromUrl(UrlParts(username, Some(host))).None?
  {
    TrimFixesTrimmed(username);
    if username != "" && IsTrimmed(username) && '@' !in username && host != "" && !IsWhitespace(host[|host| - 1]) {
      AddressIsRead(username, host, "", "");
      assert "" + (username + "@" + host) + "" == username + "@" + host;
    }
  }
}
