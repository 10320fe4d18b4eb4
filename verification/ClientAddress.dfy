// src/rate_limit.rs: the client address taken from the peer and the X-Forwarded-For header.

module ClientAddress {
  import opened Numbers

  function Split(s: string): (parts: seq<string>)
    ensures |parts| >= 1
  {
    if s == [] then [""]
    else
      var rest := Split(s[1..]);
      if s[0] == ',' then [""] + rest else [[s[0]] + rest[0]] + rest[1..]
  }

  function NonEmpty(parts: seq<string>, trim: string -> string): seq<string> {
    if parts == [] then []
    else
      var value := trim(parts[0]);
      (if value == "" then [] else [value]) + NonEmpty(parts[1..], trim)
  }

  function Entries(header: string, trim: string -> string): seq<string> {
    NonEmpty(Split(header), trim)
  }

  // The entry that many places from the right, when there is one and it is an address.
  function Select<Address>(peer: Address, entries: seq<string>, trustedHops: nat,
                           parse: string -> Option<Address>): Address
  {
    if trustedHops == 0 || |entries| < trustedHops then peer
    else
      var parsed := parse(entries[|entries| - trustedHops]);
      if parsed.Some? then parsed.value else peer
  }

  // Trimming and address parsing belong to the standard library and stay parameters.
  function Resolve<Address>(peer: Address, header: Option<string>, trustedHops: nat,
                            trim: string -> string, parse: string -> Option<Address>): Address
  {
    if trustedHops == 0 || header.None? then peer
    else Select(peer, Entries(header.value, trim), trustedHops, parse)
  }

  lemma {:induction false} SplitOfJoin(a: string, b: string)
    ensures Split(a + "," + b) == Split(a) + Split(b)
  {
    var joined := a + "," + b;
    if a == [] {
      assert joined[1..] == b;
    } else {
      assert joined[1..] == a[1..] + "," + b;
      SplitOfJoin(a[1..], b);
    }
  }

  lemma {:induction false} NonEmptyOfJoin(a: seq<string>, b: seq<string>, trim: string -> string)
    ensures NonEmpty(a + b, trim) == NonEmpty(a, trim) + NonEmpty(b, trim)
  {
    if a == [] {
      assert a + b == b;
    } else {
      assert (a + b)[1..] == a[1..] + b;
      NonEmptyOfJoin(a[1..], b, trim);
    }
  }

  // Entries are what is left of the parts that are not blank.
  lemma {:induction false} NonEmptyExactly(parts: seq<string>, trim: string -> string, entry: string)
    ensures entry in NonEmpty(parts, trim) <==> entry != "" && exists i :: 0 <= i < |parts| && trim(parts[i]) == entry
  {
    if parts != [] {
      NonEmptyExactly(parts[1..], trim, entry);
      assert forall i :: 0 < i < |parts| ==> parts[i] == parts[1..][i - 1];
      if i :| 0 <= i < |parts[1..]| && trim(parts[1..][i]) == entry {
        assert trim(parts[i + 1]) == entry;
      }
    }
  }

  lemma EntriesOfJoin(a: string, b: string, trim: string -> string)
    ensures Entries(a + "," + b, trim) == Entries(a, trim) + Entries(b, trim)
  {
    SplitOfJoin(a, b);
    NonEmptyOfJoin(Split(a), Split(b), trim);
  }

  lemma SelectIgnoresPrefix<Address>(peer: Address, a: seq<string>, b: seq<string>, trustedHops: nat,
                                     parse: string -> Option<Address>)
    requires |b| >= trustedHops
    ensures Select(peer, a + b, trustedHops, parse) == Select(peer, b, trustedHops, parse)
  {
  }

  // Whatever a client puts in front of what the trusted proxies appended, the same entry is selected.
  lemma ForgedPrefixIsIgnored<Address>(peer: Address, forged: string, header: string, trustedHops: nat,
                                       trim: string -> string, parse: string -> Option<Address>)
    requires |Entries(header, trim)| >= trustedHops
    ensures Resolve(peer, Some(forged + "," + header), trustedHops, trim, parse)
         == Resolve(peer, Some(header), trustedHops, trim, parse)
  {
    EntriesOfJoin(forged, header, trim);
    SelectIgnoresPrefix(peer, Entries(forged, trim), Entries(header, trim), trustedHops, parse);
  }

  // Of what the trusted hops appended the first is taken: the address that the outermost of them saw.
  lemma SelectsWhatTheOutermostSaw<Address>(peer: Address, header: string, front: seq<string>, seen: string, hops: seq<string>,
                                            trustedHops: nat, trim: string -> string, parse: string -> Option<Address>)
    requires Entries(header, trim) == front + [seen] + hops && trustedHops == |hops| + 1
    ensures Resolve(peer, Some(header), trustedHops, trim, parse) == if parse(seen).Some? then parse(seen).value else peer
  {
    assert (front + [seen] + hops)[|front|] == seen;
  }

  // And without trusted hops, or without a header, it is the peer.
  lemma NobodyIsTrusted<Address>(peer: Address, header: Option<string>, trustedHops: nat, trim: string -> string,
                                 parse: string -> Option<Address>)
    requires trustedHops == 0 || header.None?
    ensures Resolve(peer, header, trustedHops, trim, parse) == peer
  {
  }

  // ------------------------------------------------------------ when a client can choose the entry

  lemma {:induction false} SplitOfOne(text: string)
    requires ',' !in text
    ensures Split(text) == [text]
  {
    if text != [] {
      SplitOfOne(text[1..]);
      assert text == [text[0]] + text[1..];
    }
  }

  lemma EntriesOfOne(text: string, parts: seq<string>, trim: string -> string)
    requires parts == [text] && text != "" && ',' !in text && trim(text) == text
    ensures Entries(text, trim) == parts
  {
    SplitOfOne(text);
    assert NonEmpty(parts[1..], trim) == [];
  }

  // The same entry a number of times.
  function Repeated(text: string, n: nat): string
    requires n > 0
  {
    if n == 1 then text else text + "," + Repeated(text, n - 1)
  }

  lemma {:induction false} EntriesOfRepeated(text: string, n: nat, trim: string -> string)
    requires n > 0 && text != "" && ',' !in text && trim(text) == text
    ensures Entries(Repeated(text, n), trim) == seq(n, _ => text)
  {
    EntriesOfOne(text, [text], trim);
    if n > 1 {
      EntriesOfRepeated(text, n - 1, trim);
      EntriesOfJoin(text, Repeated(text, n - 1), trim);
    }
  }

  lemma ShortHeaderIsForged<Address>(peer: Address, header: string, trustedHops: nat, trim: string -> string,
                                     parse: string -> Option<Address>, text: string) returns (forged: string)
    requires |Entries(header, trim)| < trustedHops && text != "" && ',' !in text && trim(text) == text
    ensures Resolve(peer, Some(forged + "," + header), trustedHops, trim, parse)
         == if parse(text).Some? then parse(text).value else peer
    ensures Resolve(peer, Some(header), trustedHops, trim, parse) == peer
  {
    var n := trustedHops - |Entries(header, trim)|;
    forged := Repeated(text, n);
    EntriesOfRepeated(text, n, trim);
    EntriesOfJoin(forged, header, trim);
  }

  // Nothing put in front changes the address exactly when the header has an entry of each trusted hop: with fewer, an
  // address of the client's choice can be put where the last hop's would be.
  lemma ForgedPrefixIsIgnoredExactly<Address>(peer: Address, header: string, trustedHops: nat, trim: string -> string,
                                              parse: string -> Option<Address>, text: string)
    requires text != "" && ',' !in text && trim(text) == text && parse(text).Some? && parse(text).value != peer
    ensures (forall forged :: Resolve(peer, Some(forged + "," + header), trustedHops, trim, parse)
                              == Resolve(peer, Some(header), trustedHops, trim, parse))
            <==> trustedHops <= |Entries(header, trim)|
  {
    if trustedHops <= |Entries(header, trim)| {
      forall forged
        ensures Resolve(peer, Some(forged + "," + header), trustedHops, trim, parse)
             == Resolve(peer, Some(header), trustedHops, trim, parse)
      {
        ForgedPrefixIsIgnored(peer, forged, header, trustedHops, trim, parse);
      }
    } else {
      var forged := ShortHeaderIsForged(peer, header, trustedHops, trim, parse, text);
    }
  }
}
