/** An address-book entry: name and phone number are required, postal address,
    e-mail address and note optional. A field that was never set is `None` (a null
    reference in the original). */
module Contacts {
  import opened Outcomes
  import Seqs

  datatype Contact = Contact(
    name: Option<string>,
    phoneNumber: Option<string>,
    postalAddress: Option<string>,
    emailAddress: Option<string>,
    note: Option<string>)

  /** Collects the fields of a contact; the optional ones start unset. */
  class Builder {
    var name: Option<string>
    var phoneNumber: Option<string>
    var postalAddress: Option<string>
    var emailAddress: Option<string>
    var note: Option<string>

    constructor (name: Option<string>, phoneNumber: Option<string>)
      ensures this.name == name && this.phoneNumber == phoneNumber
      ensures postalAddress == None && emailAddress == None && note == None
    {
      this.name := name;
      this.phoneNumber := phoneNumber;
      postalAddress := None;
      emailAddress := None;
      note := None;
    }

    method PostalAddress(postalAddress: Option<string>) returns (b: Builder)
      modifies this
      ensures b == this && this.postalAddress == postalAddress
      ensures name == old(name) && phoneNumber == old(phoneNumber)
      ensures emailAddress == old(emailAddress) && note == old(note)
    {
      this.postalAddress := postalAddress;
      b := this;
    }

    method EmailAddress(emailAddress: Option<string>) returns (b: Builder)
      modifies this
      ensures b == this && this.emailAddress == emailAddress
      ensures name == old(name) && phoneNumber == old(phoneNumber)
      ensures postalAddress == old(postalAddress) && note == old(note)
    {
      this.emailAddress := emailAddress;
      b := this;
    }

    method Note(note: Option<string>) returns (b: Builder)
      modifies this
      ensures b == this && this.note == note
      ensures name == old(name) && phoneNumber == old(phoneNumber)
      ensures postalAddress == old(postalAddress) && emailAddress == old(emailAddress)
    {
      this.note := note;
      b := this;
    }

    /** A contact carrying exactly the builder's five fields. */
    method Build() returns (c: Contact)
      ensures c.name == name && c.phoneNumber == phoneNumber
      ensures c.postalAddress == postalAddress && c.emailAddress == emailAddress && c.note == note
    {
      c := Contact(name, phoneNumber, postalAddress, emailAddress, note);
    }
  }

  /** Null-aware equality of one field: null equals only null. */
  predicate FieldEquals(a: Option<string>, b: Option<string>) {
    match a
    case None => b.None?
    case Some(x) => b.Some? && x == b.value
  }

  /** Equality of contacts: the other object is a contact and all five fields agree,
      a null field agreeing only with a null field. A null or non-contact argument is
      `None`. */
  function Equals(c: Contact, obj: Option<Contact>): (r: bool)
    ensures r <==> obj == Some(c)
  {
    match obj
    case None => false
    case Some(other) =>
      && FieldEquals(c.emailAddress, other.emailAddress)
      && FieldEquals(c.name, other.name)
      && FieldEquals(c.note, other.note)
      && FieldEquals(c.phoneNumber, other.phoneNumber)
      && FieldEquals(c.postalAddress, other.postalAddress)
  }

  /** A required field as string concatenation renders it: null becomes "null". */
  function Required(f: Option<string>): string {
    match f
    case None => "null"
    case Some(s) => s
  }

  /** An optional field as the serialiser renders it: null becomes empty. */
  function Optional(f: Option<string>): string {
    match f
    case None => ""
    case Some(s) => s
  }

  /** The one-line form `name;phone;postal;email;note;`, built field by field. */
  method ToString(c: Contact) returns (s: string)
    ensures s == Serialised(c)
  {
    s := Required(c.name) + ";" + Required(c.phoneNumber) + ";";
    ghost var done := Terminated(Required(c.name)) + Terminated(Required(c.phoneNumber));
    assert s == done;
    if c.postalAddress.Some? {
      s := s + c.postalAddress.value;
    }
    s := s + ";";
    done := done + Terminated(Optional(c.postalAddress));
    assert s == done;
    if c.emailAddress.Some? {
      s := s + c.emailAddress.value;
    }
    s := s + ";";
    done := done + Terminated(Optional(c.emailAddress));
    assert s == done;
    if c.note.Some? {
      s := s + c.note.value;
    }
    s := s + ";";
    done := done + Terminated(Optional(c.note));
    assert s == done;
  }

  /** A rendered field followed by the separator. */
  function Terminated(field: string): string {
    field + ";"
  }

  /** The serialised line of a contact: the five rendered fields, each followed by
      a separator. */
  function Serialised(c: Contact): (s: string)
    ensures |s| > 0 && s[|s| - 1] == ';'
  {
    Terminated(Required(c.name)) + Terminated(Required(c.phoneNumber)) + Terminated(Optional(c.postalAddress))
      + Terminated(Optional(c.emailAddress)) + Terminated(Optional(c.note))
  }

  /** No set field contains the separator. */
  predicate SeparatorFree(c: Contact) {
    && ';' !in Required(c.name) && ';' !in Required(c.phoneNumber)
    && ';' !in Optional(c.postalAddress) && ';' !in Optional(c.emailAddress) && ';' !in Optional(c.note)
  }

  lemma TerminatedSeparators(field: string)
    requires ';' !in field
    ensures Seqs.Count(Terminated(field), ';') == 1
  {
    Seqs.CountAppend(field, ";", ';');
  }

  /** When no field contains ';' the serialised line holds exactly five separators,
      one after each field. */
  lemma SerialisedSeparators(c: Contact)
    requires SeparatorFree(c)
    ensures Seqs.Count(Serialised(c), ';') == 5
  {
    var a, b, p, e, n := Terminated(Required(c.name)), Terminated(Required(c.phoneNumber)),
      Terminated(Optional(c.postalAddress)), Terminated(Optional(c.emailAddress)), Terminated(Optional(c.note));
    TerminatedSeparators(Required(c.name));
    TerminatedSeparators(Required(c.phoneNumber));
    TerminatedSeparators(Optional(c.postalAddress));
    TerminatedSeparators(Optional(c.emailAddress));
    TerminatedSeparators(Optional(c.note));
    Seqs.CountAppend(a, b, ';');
    Seqs.CountAppend(a + b, p, ';');
    Seqs.CountAppend(a + b + p, e, ';');
    Seqs.CountAppend(a + b + p + e, n, ';');
  }
}
