/**
 * The kind of work an order asks for (`OrderType`). The work schedule
 * writes it as `<kind>-<subtype>`, the brief request as the subtype
 * alone; one catch-all accepts any text mentioning the master service.
 */
module OrderTypeData {
  import opened Base
  import opened Strings

  datatype OrderType =
    | TunerRemoval | TunerInstallation | TunerReplacement | NetGigabit
    | NetRecoveryActive | NetRecoveryPassive | NetNewActive | NetNewPassive
    | NetBroken | OthersMaster | NetRelocationActive | NetRelocationPassive
    | SomeBitchComplained | NetRecoveryUnknown | NetNewUnknown | NetRelocationUnknown

  datatype OrderTypeError = InvalidOrderType(text: string)

  /** Any text containing this is the master service. */
  const MasterMark: string := "Сервис-Мастер"

  /** Every literal of the match and the type it stands for; no literal appears twice. */
  const Table: map<string, OrderType> := map[
    "Сервис-Тюнер ДЕМОНТАЖ" := TunerRemoval,
    "Сервис-Тюнер ЗАМЕНА" := TunerReplacement,
    "Сервис-Тюнер УСТАНОВКА" := TunerInstallation,
    "Сервис-Гігабіт" := NetGigabit,
    "Актив-Восстановление" := NetRecoveryActive,
    "Пассив-Восстановление" := NetRecoveryPassive,
    "Актив-Новое подключение" := NetNewActive,
    "Пассив-Новое подключение" := NetNewPassive,
    "Сервис-Жалобы на обслуживание" := NetBroken,
    "Актив-Переезд" := NetRelocationActive,
    "Пассив-Переезд" := NetRelocationPassive,
    "Сервис-Жалобы по включениям" := SomeBitchComplained,
    "Тюнер ДЕМОНТАЖ" := TunerRemoval,
    "Тюнер ЗАМЕНА" := TunerReplacement,
    "Тюнер УСТАНОВКА" := TunerInstallation,
    "Гігабіт" := NetGigabit,
    "Восстановление" := NetRecoveryUnknown,
    "Новое подключение" := NetNewUnknown,
    "Жалобы на обслуживание" := NetBroken,
    "Мастер" := OthersMaster,
    "Переезд" := NetRelocationUnknown,
    "Жалобы по включениям" := SomeBitchComplained]

  /** `OrderType::from_str`: the arms of the match, tried top to bottom. */
  function FromStr(s: string): (r: Result<OrderType, OrderTypeError>)
    ensures r.Err? ==> r.error == InvalidOrderType(s)
  {
    if s == "Сервис-Тюнер ДЕМОНТАЖ" then Ok(TunerRemoval)
    else if s == "Сервис-Тюнер ЗАМЕНА" then Ok(TunerReplacement)
    else if s == "Сервис-Тюнер УСТАНОВКА" then Ok(TunerInstallation)
    else if s == "Сервис-Гігабіт" then Ok(NetGigabit)
    else if s == "Актив-Восстановление" then Ok(NetRecoveryActive)
    else if s == "Пассив-Восстановление" then Ok(NetRecoveryPassive)
    else if s == "Актив-Новое подключение" then Ok(NetNewActive)
    else if s == "Пассив-Новое подключение" then Ok(NetNewPassive)
    else if s == "Сервис-Жалобы на обслуживание" then Ok(NetBroken)
    else if Contains(s, MasterMark) then Ok(OthersMaster)
    else if s == "Актив-Переезд" then Ok(NetRelocationActive)
    else if s == "Пассив-Переезд" then Ok(NetRelocationPassive)
    else if s == "Сервис-Жалобы по включениям" then Ok(SomeBitchComplained)
    else if s == "Тюнер ДЕМОНТАЖ" then Ok(TunerRemoval)
    else if s == "Тюнер ЗАМЕНА" then Ok(TunerReplacement)
    else if s == "Тюнер УСТАНОВКА" then Ok(TunerInstallation)
    else if s == "Гігабіт" then Ok(NetGigabit)
    else if s == "Восстановление" then Ok(NetRecoveryUnknown)
    else if s == "Новое подключение" then Ok(NetNewUnknown)
    else if s == "Жалобы на обслуживание" then Ok(NetBroken)
    else if s == "Мастер" then Ok(OthersMaster)
    else if s == "Переезд" then Ok(NetRelocationUnknown)
    else if s == "Жалобы по включениям" then Ok(SomeBitchComplained)
    else Err(InvalidOrderType(s))
  }

  /** The work schedule's tuner literals have no lower-case 'а'. */
  lemma TunerLiteralsLackMasterMark(lit: string)
    requires lit in {"Сервис-Тюнер ДЕМОНТАЖ", "Сервис-Тюнер ЗАМЕНА", "Сервис-Тюнер УСТАНОВКА"}
    ensures !Contains(lit, MasterMark)
  {
    if lit == "Сервис-Тюнер ДЕМОНТАЖ" {
      MissingCharNotContained("Сервис-Тюнер ДЕМОНТАЖ", MasterMark, 8);
    } else if lit == "Сервис-Тюнер ЗАМЕНА" {
      MissingCharNotContained("Сервис-Тюнер ЗАМЕНА", MasterMark, 8);
    } else {
      MissingCharNotContained("Сервис-Тюнер УСТАНОВКА", MasterMark, 8);
    }
  }

  /** The brief request's literals have no '-'. */
  lemma BriefLiteralsLackMasterMark(lit: string)
    requires lit in {"Тюнер ДЕМОНТАЖ", "Тюнер ЗАМЕНА", "Тюнер УСТАНОВКА", "Гігабіт", "Восстановление", "Новое подключение", "Жалобы на обслуживание", "Мастер", "Переезд", "Жалобы по включениям"}
    ensures !Contains(lit, MasterMark)
  {
    if lit == "Тюнер ДЕМОНТАЖ" {
      MissingCharNotContained("Тюнер ДЕМОНТАЖ", MasterMark, 6);
    } else if lit == "Тюнер ЗАМЕНА" {
      MissingCharNotContained("Тюнер ЗАМЕНА", MasterMark, 6);
    } else if lit == "Тюнер УСТАНОВКА" {
      MissingCharNotContained("Тюнер УСТАНОВКА", MasterMark, 6);
    } else if lit == "Гігабіт" {
      MissingCharNotContained("Гігабіт", MasterMark, 6);
    } else if lit == "Восстановление" {
      MissingCharNotContained("Восстановление", MasterMark, 6);
    } else if lit == "Новое подключение" {
      MissingCharNotContained("Новое подключение", MasterMark, 6);
    } else if lit == "Жалобы на обслуживание" {
      MissingCharNotContained("Жалобы на обслуживание", MasterMark, 6);
    } else if lit == "Мастер" {
      MissingCharNotContained("Мастер", MasterMark, 6);
    } else if lit == "Переезд" {
      MissingCharNotContained("Переезд", MasterMark, 6);
    } else {
      MissingCharNotContained("Жалобы по включениям", MasterMark, 6);
    }
  }

  /** The remaining work-schedule literals have no 'М'. */
  lemma OtherLiteralsLackMasterMark(lit: string)
    requires lit in {"Сервис-Гігабіт", "Актив-Восстановление", "Пассив-Восстановление", "Актив-Новое подключение", "Пассив-Новое подключение", "Сервис-Жалобы на обслуживание", "Актив-Переезд", "Пассив-Переезд", "Сервис-Жалобы по включениям"}
    ensures !Contains(lit, MasterMark)
  {
    if lit == "Сервис-Гігабіт" {
      MissingCharNotContained("Сервис-Гігабіт", MasterMark, 7);
    } else if lit == "Актив-Восстановление" {
      MissingCharNotContained("Актив-Восстановление", MasterMark, 7);
    } else if lit == "Пассив-Восстановление" {
      MissingCharNotContained("Пассив-Восстановление", MasterMark, 7);
    } else if lit == "Актив-Новое подключение" {
      MissingCharNotContained("Актив-Новое подключение", MasterMark, 7);
    } else if lit == "Пассив-Новое подключение" {
      MissingCharNotContained("Пассив-Новое подключение", MasterMark, 7);
    } else if lit == "Сервис-Жалобы на обслуживание" {
      MissingCharNotContained("Сервис-Жалобы на обслуживание", MasterMark, 7);
    } else if lit == "Актив-Переезд" {
      MissingCharNotContained("Актив-Переезд", MasterMark, 7);
    } else if lit == "Пассив-Переезд" {
      MissingCharNotContained("Пассив-Переезд", MasterMark, 7);
    } else {
      MissingCharNotContained("Сервис-Жалобы по включениям", MasterMark, 7);
    }
  }

  /** No literal of the table mentions the master service, so the catch-all never shadows one. */
  lemma LiteralLacksMasterMark(lit: string)
    requires lit in Table
    ensures !Contains(lit, MasterMark)
  {
    if lit in {"Сервис-Тюнер ДЕМОНТАЖ", "Сервис-Тюнер ЗАМЕНА", "Сервис-Тюнер УСТАНОВКА"} {
      TunerLiteralsLackMasterMark(lit);
    } else if lit in {"Тюнер ДЕМОНТАЖ", "Тюнер ЗАМЕНА", "Тюнер УСТАНОВКА", "Гігабіт", "Восстановление", "Новое подключение", "Жалобы на обслуживание", "Мастер", "Переезд", "Жалобы по включениям"} {
      BriefLiteralsLackMasterMark(lit);
    } else {
      OtherLiteralsLackMasterMark(lit);
    }
  }

  /**
   * The match is the table: a text is a known type exactly when it is one
   * of the literals (and then the type listed beside it) or mentions the
   * master service (and then it is `OthersMaster`).
   */
  lemma FromStrIsTable(s: string)
    ensures s in Table ==> FromStr(s) == Ok(Table[s])
    ensures Contains(s, MasterMark) ==> FromStr(s) == Ok(OthersMaster)
    ensures FromStr(s).Err? <==> s !in Table && !Contains(s, MasterMark)
  {
    if s in Table {
      LiteralLacksMasterMark(s);
    }
  }

  /** The two ways of writing a tuner service give the same type. */
  lemma TunerDialectsAgree()
    ensures FromStr("Сервис-Тюнер ДЕМОНТАЖ") == FromStr("Тюнер ДЕМОНТАЖ") == Ok(TunerRemoval)
    ensures FromStr("Сервис-Тюнер ЗАМЕНА") == FromStr("Тюнер ЗАМЕНА") == Ok(TunerReplacement)
    ensures FromStr("Сервис-Тюнер УСТАНОВКА") == FromStr("Тюнер УСТАНОВКА") == Ok(TunerInstallation)
  {
    FromStrIsTable("Тюнер ДЕМОНТАЖ");
    FromStrIsTable("Тюнер ЗАМЕНА");
    FromStrIsTable("Тюнер УСТАНОВКА");
  }

  /** The two ways of writing a network or master service give the same type. */
  lemma NetDialectsAgree()
    ensures FromStr("Сервис-Гігабіт") == FromStr("Гігабіт") == Ok(NetGigabit)
    ensures FromStr("Сервис-Жалобы на обслуживание") == FromStr("Жалобы на обслуживание") == Ok(NetBroken)
    ensures FromStr("Сервис-Мастер") == FromStr("Мастер") == Ok(OthersMaster)
    ensures FromStr("Сервис-Жалобы по включениям") == FromStr("Жалобы по включениям") == Ok(SomeBitchComplained)
  {
    FromStrIsTable("Гігабіт");
    FromStrIsTable("Жалобы на обслуживание");
    FromStrIsTable("Мастер");
    FromStrIsTable("Жалобы по включениям");
    FromStrIsTable("Сервис-Жалобы по включениям");
    assert OccursAt("Сервис-Мастер", MasterMark, 0);
  }

  /** The `Актив-`/`Пассив-` forms tell active from passive; the bare form cannot. */
  lemma ActivityOnlyWhenPrefixed()
    ensures FromStr("Актив-Восстановление") == Ok(NetRecoveryActive)
    ensures FromStr("Пассив-Восстановление") == Ok(NetRecoveryPassive)
    ensures FromStr("Восстановление") == Ok(NetRecoveryUnknown)
    ensures FromStr("Актив-Новое подключение") == Ok(NetNewActive)
    ensures FromStr("Пассив-Новое подключение") == Ok(NetNewPassive)
    ensures FromStr("Новое подключение") == Ok(NetNewUnknown)
    ensures FromStr("Актив-Переезд") == Ok(NetRelocationActive)
    ensures FromStr("Пассив-Переезд") == Ok(NetRelocationPassive)
    ensures FromStr("Переезд") == Ok(NetRelocationUnknown)
  {
    FromStrIsTable("Восстановление");
    FromStrIsTable("Новое подключение");
    FromStrIsTable("Актив-Переезд");
    FromStrIsTable("Пассив-Переезд");
    FromStrIsTable("Переезд");
  }

  /** A text that begins with the master service is the master service, whatever follows. */
  lemma MasterWithSuffix(rest: string)
    ensures FromStr(MasterMark + rest) == Ok(OthersMaster)
  {
    assert OccursAt(MasterMark + rest, MasterMark, 0);
    FromStrIsTable(MasterMark + rest);
  }

  /** Text that is no literal and does not mention the master service is rejected verbatim. */
  lemma UnknownText()
    ensures FromStr("???") == Err(InvalidOrderType("???"))
  {
    MissingCharNotContained("???", MasterMark, 0);
  }
}
