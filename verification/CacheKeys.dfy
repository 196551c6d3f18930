/** The key families of the user cache: GetUserKeys and GetAllUserKeys of app/utils/user_utils.go, and the
    key GetUserByMailWithCodes of app/repositories/users_repository.go reads. */
module CacheKeys {
  import opened Text
  import Email

  function PublicKey(id: int): string {
    "user-public:" + Signed(id)
  }

  function IdKey(id: int): string {
    "user:" + Signed(id)
  }

  function MailKey(mail: string): string {
    "user:email:" + mail
  }

  function ReadKey(mail: string): string {
    "user:" + mail
  }

  /** The keys UpdateCache writes: a snapshot without its details goes under the public key alone. */
  function GetUserKeys(id: int, mail: string, hasDetails: bool): seq<string> {
    if !hasDetails then [PublicKey(id)] else [IdKey(id), MailKey(mail)]
  }

  /** The keys InvalidateCache deletes. */
  function GetAllUserKeys(id: int, mail: string): seq<string> {
    [PublicKey(id), IdKey(id), MailKey(mail)]
  }

  lemma FamiliesInjective(id: int, id': int, mail: string, mail': string)
    ensures PublicKey(id) == PublicKey(id') ==> id == id'
    ensures IdKey(id) == IdKey(id') ==> id == id'
    ensures MailKey(mail) == MailKey(mail') ==> mail == mail'
  {
    if PublicKey(id) == PublicKey(id') {
      assert Signed(id) == PublicKey(id)[12..] == PublicKey(id')[12..] == Signed(id');
      SignedInjective(id, id');
    }
    if IdKey(id) == IdKey(id') {
      assert Signed(id) == IdKey(id)[5..] == IdKey(id')[5..] == Signed(id');
      SignedInjective(id, id');
    }
    if MailKey(mail) == MailKey(mail') {
      assert mail == MailKey(mail)[11..] == MailKey(mail')[11..] == mail';
    }
  }

  lemma FamiliesDisjoint(id: int, id': int, mail: string)
    ensures PublicKey(id) != IdKey(id')
    ensures PublicKey(id) != MailKey(mail)
    ensures IdKey(id) != MailKey(mail)
  {
    assert PublicKey(id)[4] == '-' && IdKey(id')[4] == ':' && MailKey(mail)[4] == ':';
    assert IdKey(id)[5] == Signed(id)[0] && MailKey(mail)[5] == 'e';
    assert Signed(id)[0] == '-' || IsDigit(Signed(id)[0]);
  }

  /** Users with different IDs and different mails share no key. */
  lemma NoSharedKey(id: int, mail: string, id': int, mail': string, key: string)
    requires id != id' && mail != mail'
    requires key in GetAllUserKeys(id, mail)
    ensures key !in GetAllUserKeys(id', mail')
  {
    FamiliesInjective(id, id', mail, mail');
    FamiliesDisjoint(id, id', mail);
    FamiliesDisjoint(id, id', mail');
    FamiliesDisjoint(id', id, mail);
    FamiliesDisjoint(id', id, mail');
  }

  /** Invalidation deletes every key that caching the same user, with or without details, can write. */
  lemma InvalidationCoversUpdate(id: int, mail: string, hasDetails: bool, key: string)
    requires key in GetUserKeys(id, mail, hasDetails)
    ensures key in GetAllUserKeys(id, mail)
  {
  }

  lemma NoAtInSigned(id: int)
    ensures '@' !in Signed(id)
  {
    forall j | 0 <= j < |Signed(id)|
      ensures Signed(id)[j] != '@'
    {
      assert Signed(id)[j] == '-' || IsDigit(Signed(id)[j]);
    }
  }

  lemma ReadKeyIsNoIdKey(mail: string, id: int)
    requires Email.CheckEmailFormat(mail)
    ensures ReadKey(mail) != IdKey(id)
  {
    assert ReadKey(mail)[5..] == mail && IdKey(id)[5..] == Signed(id);
    NoAtInSigned(id);
    assert '@' in mail by {
      Email.AcceptedCharacters(mail, 0);
    }
  }

  lemma ReadKeyIsNoMailKey(mail: string, mail': string)
    requires Email.CheckEmailFormat(mail)
    ensures ReadKey(mail) != MailKey(mail')
  {
    if |mail| > 5 {
      assert ReadKey(mail)[10] == mail[5] && MailKey(mail')[10] == ':';
      Email.AcceptedCharacters(mail, 5);
    }
  }

  /** The read key of an accepted mail is no written key at all, whoever it was written for: that read
      never returns another user's entry, and never any entry. */
  lemma ReadKeyNeverWritten(mail: string, id: int, mail': string)
    requires Email.CheckEmailFormat(mail)
    ensures ReadKey(mail) !in GetAllUserKeys(id, mail')
    ensures ("user:" + mail) !in ["user-public:" + Signed(id), "user:" + Signed(id), "user:email:" + mail']
  {
    assert ReadKey(mail)[4] == ':' && PublicKey(id)[4] == '-';
    ReadKeyIsNoIdKey(mail, id);
    ReadKeyIsNoMailKey(mail, mail');
  }
}
