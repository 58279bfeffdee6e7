/** An ordered address book of contacts: append, remove the first equal contact,
    case-insensitive search over the serialised form, the one-line-per-contact
    listing, and reading contacts back from such lines. */
module AddressBook {
  import opened Outcomes
  import opened Text
  import opened Contacts
  import Seqs

  // ---------------------------------------------------------------------------
  // Specification functions

  /** The contacts left after removing the first one equal to `c`; the book is
      unchanged when there is none. */
  function RemoveFirst(cs: seq<Contact>, c: Contact): (r: seq<Contact>)
    ensures c !in cs ==> r == cs
    ensures c in cs ==> |r| == |cs| - 1
  {
    if cs == [] then []
    else if Contacts.Equals(c, Some(cs[0])) then cs[1..]
    else [cs[0]] + RemoveFirst(cs[1..], c)
  }

  /** Exactly the first occurrence goes: the contacts before it and after it stay,
      in order. */
  lemma {:induction false} RemoveFirstOccurrence(cs: seq<Contact>, c: Contact, i: int)
    requires 0 <= i < |cs| && cs[i] == c && c !in cs[..i]
    ensures RemoveFirst(cs, c) == cs[..i] + cs[i + 1..]
  {
    if i > 0 {
      assert cs[0] in cs[..i];
      assert cs[1..][..i - 1] == cs[1..i];
      RemoveFirstOccurrence(cs[1..], c, i - 1);
      assert cs[..i] == [cs[0]] + cs[1..i];
    }
  }

  /** Removal takes one copy of `c` out of the book's multiset of contacts, or
      none when there is none. */
  lemma {:induction false} RemoveFirstMultiset(cs: seq<Contact>, c: Contact)
    ensures multiset(RemoveFirst(cs, c)) == multiset(cs) - multiset{c}
  {
    if cs != [] {
      assert cs == [cs[0]] + cs[1..];
      if cs[0] != c {
        RemoveFirstMultiset(cs[1..], c);
      }
    }
  }

  /** The search criterion: the lower-cased serialised contact contains the
      lower-cased query. */
  predicate Matches(c: Contact, query: string) {
    Contains(ToLower(Serialised(c)), ToLower(query))
  }

  /** The contacts that match, in book order. */
  function Matching(cs: seq<Contact>, query: string): (r: seq<Contact>)
    ensures |r| <= |cs|
  {
    if cs == [] then []
    else Matching(cs[..|cs| - 1], query) + (if Matches(cs[|cs| - 1], query) then [cs[|cs| - 1]] else [])
  }

  /** The search result holds exactly the matching contacts of the book. */
  lemma {:induction false} MatchingMembers(cs: seq<Contact>, query: string)
    ensures forall x :: x in Matching(cs, query) <==> x in cs && Matches(x, query)
  {
    if cs != [] {
      var init := cs[..|cs| - 1];
      MatchingMembers(init, query);
      assert cs == init + [cs[|cs| - 1]];
    }
  }

  lemma EmptyQueryMatches(c: Contact)
    ensures Matches(c, "")
  {
    ContainsTrivially(ToLower(Serialised(c)));
    assert ToLower("") == "";
  }

  /** The empty query matches every contact, so it returns the whole book. */
  lemma {:induction false} MatchingEmptyQuery(cs: seq<Contact>)
    ensures Matching(cs, "") == cs
  {
    if cs != [] {
      var last := cs[|cs| - 1];
      MatchingEmptyQuery(cs[..|cs| - 1]);
      EmptyQueryMatches(last);
      assert Matching(cs, "") == Matching(cs[..|cs| - 1], "") + [last];
      assert cs[..|cs| - 1] + [last] == cs;
    }
  }

  /** The book as text: each contact's line followed by a newline. */
  function Listing(cs: seq<Contact>): string {
    if cs == [] then ""
    else Listing(cs[..|cs| - 1]) + Serialised(cs[|cs| - 1]) + "\n"
  }

  /** A string without line breaks (neither '\n' nor '\r'). */
  predicate NoLineBreak(s: string) {
    '\n' !in s && '\r' !in s
  }

  /** No field holds a line break. */
  predicate SingleLine(c: Contact) {
    && NoLineBreak(Required(c.name)) && NoLineBreak(Required(c.phoneNumber))
    && NoLineBreak(Optional(c.postalAddress)) && NoLineBreak(Optional(c.emailAddress))
    && NoLineBreak(Optional(c.note))
  }

  lemma SingleLineSerialised(c: Contact)
    requires SingleLine(c)
    ensures NoLineBreak(Serialised(c))
  {
  }

  /** When no field holds a line break the listing has exactly one line per contact. */
  lemma {:induction false} ListingLines(cs: seq<Contact>)
    requires forall i :: 0 <= i < |cs| ==> SingleLine(cs[i])
    ensures Seqs.Count(Listing(cs), '\n') == |cs|
  {
    if cs != [] {
      var last := cs[|cs| - 1];
      ListingLines(cs[..|cs| - 1]);
      SingleLineSerialised(last);
      Seqs.CountAppend(Listing(cs[..|cs| - 1]), Serialised(last), '\n');
      Seqs.CountAppend(Listing(cs[..|cs| - 1]) + Serialised(last), "\n", '\n');
    }
  }

  // ---------------------------------------------------------------------------
  // Reading contacts back

  /** A field the parser sets only when it is non-empty. */
  function NonEmpty(field: string): Option<string> {
    if |field| > 0 then Some(field) else None
  }

  /** One line of a saved book: an empty line holds no contact; otherwise the line
      is split on ';' and needs five fields (fewer is an index out of bounds);
      the first two become name and phone number, the other three are set only when
      non-empty. */
  function ParseLine(line: string): (r: Result<Option<Contact>>)
    ensures |line| == 0 <==> r == Ok(None)
    ensures r.Err? ==> r.error == IndexOutOfBounds
    ensures |line| > 0 ==> (r.Err? <==> |Split(line, ';')| < 5)
    ensures r.Ok? && r.value.Some? ==>
      var c := r.value.value;
      c.name.Some? && c.phoneNumber.Some? && c.postalAddress != Some("") &&
      c.emailAddress != Some("") && c.note != Some("")
  {
    if |line| == 0 then Ok(None)
    else
      var fields := Split(line, ';');
      if |fields| < 5 then Err(IndexOutOfBounds)
      else Ok(Some(Contact(Some(fields[0]), Some(fields[1]), NonEmpty(fields[2]), NonEmpty(fields[3]), NonEmpty(fields[4]))))
  }

  /** A contact whose line reads back as itself: name and phone number set, no field
      containing ';', optional fields unset or non-empty, and the note set. */
  predicate RoundTrips(c: Contact) {
    && c.name.Some? && c.phoneNumber.Some? && SeparatorFree(c)
    && c.postalAddress != Some("") && c.emailAddress != Some("")
    && c.note.Some? && c.note.value != ""
  }

  /** The pieces of a serialised line: the five rendered fields and the empty
      piece after the last separator. */
  lemma SerialisedPieces(c: Contact)
    requires SeparatorFree(c)
    ensures Pieces(Serialised(c), ';') ==
      [Required(c.name), Required(c.phoneNumber), Optional(c.postalAddress), Optional(c.emailAddress), Optional(c.note), ""]
  {
    var a, b, p, e, n := Required(c.name), Required(c.phoneNumber), Optional(c.postalAddress),
      Optional(c.emailAddress), Optional(c.note);
    assert Serialised(c) == a + [';'] + (b + [';'] + (p + [';'] + (e + [';'] + (n + [';'] + []))));
    PiecesOfField(a, ';', b + [';'] + (p + [';'] + (e + [';'] + (n + [';'] + []))));
    PiecesOfField(b, ';', p + [';'] + (e + [';'] + (n + [';'] + [])));
    PiecesOfField(p, ';', e + [';'] + (n + [';'] + []));
    PiecesOfField(e, ';', n + [';'] + []);
    PiecesOfField(n, ';', []);
  }

  /** Round trip: a contact that round-trips is read back from its own line. */
  lemma ParseSerialised(c: Contact)
    requires RoundTrips(c)
    ensures ParseLine(Serialised(c)) == Ok(Some(c))
  {
    SerialisedPieces(c);
    var s := Serialised(c);
    assert s[|s| - 1] == ';';
    var pieces := Pieces(s, ';');
    assert pieces[..5] == [Required(c.name), Required(c.phoneNumber), Optional(c.postalAddress), Optional(c.emailAddress), Optional(c.note)];
    assert DropTrailingEmpty(pieces) == DropTrailingEmpty(pieces[..5]);
    assert Split(s, ';') == [Required(c.name), Required(c.phoneNumber), Optional(c.postalAddress), Optional(c.emailAddress), Optional(c.note)];
  }

  /** A contact without a note cannot be read back: its line ends in two separators,
      split drops the empty trailing pieces and fewer than five fields remain. */
  lemma ParseWithoutNoteFails(c: Contact)
    requires SeparatorFree(c) && (c.note == None || c.note == Some(""))
    ensures ParseLine(Serialised(c)).Err?
  {
    SerialisedPieces(c);
    var s := Serialised(c);
    assert s[|s| - 1] == ';';
    assert |Split(s, ';')| <= 4;
  }

  /** What reading a sequence of lines adds to the book and how it ends: lines are
      read in order, empty lines skipped, and the first malformed line ends the
      reading with its exception, keeping the contacts read before it. */
  function LoadResult(lines: seq<string>): (r: (seq<Contact>, Outcome))
    ensures |r.0| <= |lines|
  {
    if lines == [] then ([], Pass)
    else
      match ParseLine(lines[0])
      case Err(e) => ([], Fail(e))
      case Ok(None) => LoadResult(lines[1..])
      case Ok(Some(c)) => ([c] + LoadResult(lines[1..]).0, LoadResult(lines[1..]).1)
  }

  /** The lines a saved book consists of: one serialised line per contact, in
      order. */
  function SavedLines(cs: seq<Contact>): (lines: seq<string>)
    ensures |lines| == |cs|
    ensures forall i :: 0 <= i < |cs| ==> lines[i] == Serialised(cs[i])
  {
    if cs == [] then [] else [Serialised(cs[0])] + SavedLines(cs[1..])
  }

  /** A line holding a contact adds that contact in front of what the rest adds. */
  lemma LoadContact(line: string, rest: seq<string>, c: Contact)
    requires ParseLine(line) == Ok(Some(c))
    ensures LoadResult([line] + rest) == ([c] + LoadResult(rest).0, LoadResult(rest).1)
  {
    assert ([line] + rest)[1..] == rest;
  }

  /** Reading back the lines of a saved book: the lines of a book whose contacts all
      round-trip are read back as the same contacts, without error. */
  lemma {:induction false} LoadSavedLines(cs: seq<Contact>)
    requires forall i :: 0 <= i < |cs| ==> RoundTrips(cs[i])
    ensures LoadResult(SavedLines(cs)) == (cs, Pass)
  {
    if cs != [] {
      ParseSerialised(cs[0]);
      LoadContact(Serialised(cs[0]), SavedLines(cs[1..]), cs[0]);
      LoadSavedLines(cs[1..]);
      assert [cs[0]] + cs[1..] == cs;
    }
  }

  /** The lines a line-by-line reader returns for `text`, `current` being the part
      of the line read so far: a line ends at "\r\n", '\r' or '\n'; a line break
      at the very end ends the last line rather than starting an empty one. */
  function ScannedLines(text: string, current: string): (lines: seq<string>)
    decreases |text|
  {
    if text == [] then (if current == [] then [] else [current])
    else if text[0] == '\n' then [current] + ScannedLines(text[1..], [])
    else if text[0] == '\r' then
      if |text| > 1 && text[1] == '\n' then [current] + ScannedLines(text[2..], [])
      else [current] + ScannedLines(text[1..], [])
    else ScannedLines(text[1..], current + [text[0]])
  }

  /** A piece of text without line breaks followed by '\n' completes the current
      line; reading goes on with an empty line. */
  lemma {:induction false} ScannedLineOf(line: string, rest: string, current: string)
    requires NoLineBreak(line)
    ensures ScannedLines(line + "\n" + rest, current) == [current + line] + ScannedLines(rest, [])
    decreases |line|
  {
    var text := line + "\n" + rest;
    if line == [] {
      assert text[0] == '\n' && text[1..] == rest;
      assert current + line == current;
    } else {
      assert text[0] == line[0] && text[1..] == line[1..] + "\n" + rest;
      ScannedLineOf(line[1..], rest, current + [line[0]]);
      assert current + [line[0]] + line[1..] == current + line;
    }
  }

  /** Lines written one after the other, each followed by '\n'. */
  function Joined(lines: seq<string>): string {
    if lines == [] then "" else lines[0] + "\n" + Joined(lines[1..])
  }

  /** The last line split off the joined text. */
  lemma {:induction false} JoinedLast(lines: seq<string>)
    requires lines != []
    ensures Joined(lines) == Joined(lines[..|lines| - 1]) + lines[|lines| - 1] + "\n"
    decreases |lines|
  {
    var n := |lines|;
    if n == 1 {
      assert lines[..0] == [] && lines[1..] == [];
    } else {
      var tail := lines[1..];
      JoinedLast(tail);
      assert lines[..n - 1][0] == lines[0];
      assert lines[..n - 1][1..] == tail[..|tail| - 1];
      assert tail[|tail| - 1] == lines[n - 1];
      var middle := Joined(tail[..|tail| - 1]);
      calc {
        Joined(lines);
        lines[0] + "\n" + Joined(tail);
        lines[0] + "\n" + (middle + lines[n - 1] + "\n");
        lines[0] + "\n" + middle + lines[n - 1] + "\n";
        Joined(lines[..n - 1]) + lines[n - 1] + "\n";
      }
    }
  }

  /** The listing is the serialised lines of the contacts, joined. */
  lemma {:induction false} ListingJoined(cs: seq<Contact>, lines: seq<string>)
    requires |lines| == |cs| && forall i :: 0 <= i < |cs| ==> lines[i] == Serialised(cs[i])
    ensures Listing(cs) == Joined(lines)
    decreases |cs|
  {
    if cs != [] {
      var init := cs[..|cs| - 1];
      ListingJoined(init, lines[..|lines| - 1]);
      JoinedLast(lines);
    }
  }

  /** Lines without line breaks, joined, are read back as the same lines. */
  lemma {:induction false} ScannedJoined(lines: seq<string>)
    requires forall i :: 0 <= i < |lines| ==> NoLineBreak(lines[i])
    ensures ScannedLines(Joined(lines), []) == lines
    decreases |lines|
  {
    if lines != [] {
      ScannedLineOf(lines[0], Joined(lines[1..]), []);
      ScannedJoined(lines[1..]);
      assert [] + lines[0] == lines[0];
    }
  }

  /** Saving writes the listing as one text; when no field holds a line break,
      reading that text line by line gives back one serialised line per contact. */
  lemma ListingScansToSavedLines(cs: seq<Contact>)
    requires forall i :: 0 <= i < |cs| ==> SingleLine(cs[i])
    ensures ScannedLines(Listing(cs), []) == SavedLines(cs)
  {
    ListingJoined(cs, SavedLines(cs));
    forall i | 0 <= i < |cs| ensures NoLineBreak(SavedLines(cs)[i]) {
      SingleLineSerialised(cs[i]);
    }
    ScannedJoined(SavedLines(cs));
  }

  /** Saving and reading back: a book whose contacts all round-trip and hold no line
      break is written as its listing and read back, line by line, as the same
      contacts, without error. */
  lemma LoadSerialisedLines(cs: seq<Contact>)
    requires forall i :: 0 <= i < |cs| ==> RoundTrips(cs[i]) && SingleLine(cs[i])
    ensures LoadResult(ScannedLines(Listing(cs), [])) == (cs, Pass)
  {
    ListingScansToSavedLines(cs);
    LoadSavedLines(cs);
  }

  /** The serialised fields before the note. */
  function FieldsBeforeNote(c: Contact): string {
    Terminated(Required(c.name)) + Terminated(Required(c.phoneNumber))
      + Terminated(Optional(c.postalAddress)) + Terminated(Optional(c.emailAddress))
  }

  /** A listed contact whose note is a line break reads back as two lines. */
  lemma NoteBreakLines(c: Contact)
    requires c.note == Some("\n") && NoLineBreak(FieldsBeforeNote(c))
    ensures ScannedLines(Listing([c]), []) == [FieldsBeforeNote(c), ";"]
  {
    var front := FieldsBeforeNote(c);
    assert Serialised(c) == front + "\n" + ";";
    assert [c][..0] == [] && Listing([c]) == "" + Serialised(c) + "\n";
    assert Listing([c]) == front + "\n" + (";" + "\n" + "");
    ScannedLineOf(front, ";" + "\n" + "", []);
    ScannedLineOf(";", "", []);
    assert [] + front == front && [] + ";" == ";";
  }

  /** The pieces of the fields before the note: the four rendered fields and the
      empty piece after the last separator. */
  lemma FieldsBeforeNotePieces(c: Contact)
    requires SeparatorFree(c)
    ensures Pieces(FieldsBeforeNote(c), ';') ==
      [Required(c.name), Required(c.phoneNumber), Optional(c.postalAddress), Optional(c.emailAddress), ""]
  {
    var a, b, p, e := Required(c.name), Required(c.phoneNumber), Optional(c.postalAddress), Optional(c.emailAddress);
    assert FieldsBeforeNote(c) == a + [';'] + (b + [';'] + (p + [';'] + (e + [';'] + [])));
    PiecesOfField(a, ';', b + [';'] + (p + [';'] + (e + [';'] + [])));
    PiecesOfField(b, ';', p + [';'] + (e + [';'] + []));
    PiecesOfField(p, ';', e + [';'] + []);
    PiecesOfField(e, ';', []);
  }

  /** The fields before the note split into at most four pieces once the empty
      trailing piece is dropped: too few for a contact. */
  lemma FieldsBeforeNoteFail(c: Contact)
    requires SeparatorFree(c)
    ensures ParseLine(FieldsBeforeNote(c)) == Err(IndexOutOfBounds)
  {
    var front := FieldsBeforeNote(c);
    FieldsBeforeNotePieces(c);
    assert front[|front| - 1] == ';';
  }

  /** A line break in a field breaks the round trip: a contact that round-trips on
      its own line but whose note is a line break is listed as two lines, the
      fields before the note and ";". The first already has too few fields (its
      trailing empty piece is dropped), so reading the saved book throws on it and
      reads no contact. */
  lemma LineBreakInNoteFails(c: Contact)
    requires RoundTrips(c) && c.note == Some("\n")
    requires NoLineBreak(Required(c.name)) && NoLineBreak(Required(c.phoneNumber))
    requires NoLineBreak(Optional(c.postalAddress)) && NoLineBreak(Optional(c.emailAddress))
    ensures LoadResult(ScannedLines(Listing([c]), [])) == ([], Fail(IndexOutOfBounds))
  {
    NoteBreakLines(c);
    FieldsBeforeNoteFail(c);
  }

  // ---------------------------------------------------------------------------
  // The book

  class AddressBook {
    var contacts: seq<Contact>

    constructor ()
      ensures contacts == []
    {
      contacts := [];
    }

    static method CreateEmptyAddressBook() returns (book: AddressBook)
      ensures fresh(book) && book.contacts == []
    {
      book := new AddressBook();
    }

    /** Appends, duplicates included. */
    method AddContact(c: Contact)
      modifies this
      ensures contacts == old(contacts) + [c]
    {
      contacts := contacts + [c];
    }

    /** Removes the first contact equal to `c`, if any. */
    method RemoveContact(c: Contact)
      modifies this
      ensures contacts == RemoveFirst(old(contacts), c)
    {
      contacts := RemoveFirst(contacts, c);
    }

    /** The contacts whose serialised form contains the query ignoring case, in
        book order. */
    method Search(query: string) returns (result: seq<Contact>)
      ensures result == Matching(contacts, query)
    {
      result := [];
      for i := 0 to |contacts|
        invariant result == Matching(contacts[..i], query)
      {
        assert contacts[..i + 1][..i] == contacts[..i];
        var line := Contacts.ToString(contacts[i]);
        if Contains(ToLower(line), ToLower(query)) {
          result := result + [contacts[i]];
        }
      }
      assert contacts[..|contacts|] == contacts;
    }

    /** One line per contact, each ended by a newline. */
    method ToString() returns (s: string)
      ensures s == Listing(contacts)
    {
      s := "";
      for i := 0 to |contacts|
        invariant s == Listing(contacts[..i])
      {
        assert contacts[..i + 1][..i] == contacts[..i];
        var line := Contacts.ToString(contacts[i]);
        s := s + line + "\n";
      }
      assert contacts[..|contacts|] == contacts;
    }

    /** Equality of books: the other object is a book whose contacts are pairwise
        equal, in order. A null or non-book argument is `null`. */
    function Equals(obj: AddressBook?): (r: bool)
      reads this, obj
      ensures r <==> obj != null && obj.contacts == contacts
    {
      || obj == this
      || (&& obj != null && |contacts| == |obj.contacts|
          && forall i :: 0 <= i < |contacts| ==> Contacts.Equals(contacts[i], Some(obj.contacts[i])))
    }

    /** Reads the given lines into the book, as the file loader does line by line. */
    method LoadLines(lines: seq<string>) returns (outcome: Outcome)
      modifies this
      ensures contacts == old(contacts) + LoadResult(lines).0
      ensures outcome == LoadResult(lines).1
    {
      var i := 0;
      ghost var added: seq<Contact> := [];
      assert lines[0..] == lines;
      assert added + LoadResult(lines).0 == LoadResult(lines).0;
      while i < |lines|
        invariant 0 <= i <= |lines|
        invariant contacts == old(contacts) + added
        invariant LoadResult(lines) == (added + LoadResult(lines[i..]).0, LoadResult(lines[i..]).1)
      {
        assert lines[i..][1..] == lines[i + 1..];
        var parsed := ParseLine(lines[i]);
        match parsed {
          case Err(e) =>
            return Fail(e);
          case Ok(None) =>
          case Ok(Some(c)) =>
            AddContact(c);
            assert added + ([c] + LoadResult(lines[i + 1..]).0) == (added + [c]) + LoadResult(lines[i + 1..]).0;
            added := added + [c];
        }
        i := i + 1;
      }
      return Pass;
    }
  }
}
