/** The record shapes shared by the services (src/types/index.ts). */
module AppTypes {
  import opened Wrappers

  /** The keys of `QadaCount` and of `PrayerDay.prayers`; sunrise is not a prayer. */
  datatype PrayerName = Fajr | Dhuhr | Asr | Maghrib | Isha

  /** One prayer of a day record. An absent `isQada` reads as false wherever the
      app tests it, so it is a plain flag here; an absent `loggedAt` or
      `qadaCount` is None. */
  datatype Prayer = Prayer(
    name: string,
    time: string,
    completed: bool,
    loggedAt: Option<string>,
    isQada: bool,
    qadaCount: Option<int>,
    snoozedCount: Option<int>)

  /** The record of one day, keyed by prayer. */
  datatype PrayerDay = PrayerDay(date: string, fajr: Prayer, dhuhr: Prayer, asr: Prayer, maghrib: Prayer, isha: Prayer)
  {
    function Get(p: PrayerName): Prayer
    {
      match p
      case Fajr => fajr
      case Dhuhr => dhuhr
      case Asr => asr
      case Maghrib => maghrib
      case Isha => isha
    }

    /** `prayers[p] = v`: replaces one prayer and keeps the others. */
    function Set(p: PrayerName, v: Prayer): (d: PrayerDay)
      ensures d.Get(p) == v && d.date == date
      ensures forall q :: q != p ==> d.Get(q) == Get(q)
    {
      match p
      case Fajr => this.(fajr := v)
      case Dhuhr => this.(dhuhr := v)
      case Asr => this.(asr := v)
      case Maghrib => this.(maghrib := v)
      case Isha => this.(isha := v)
    }
  }

  /** The number of missed prayers still to make up, per prayer. */
  datatype QadaCount = QadaCount(fajr: int, dhuhr: int, asr: int, maghrib: int, isha: int)
  {
    function Get(p: PrayerName): int
    {
      match p
      case Fajr => fajr
      case Dhuhr => dhuhr
      case Asr => asr
      case Maghrib => maghrib
      case Isha => isha
    }

    /** `count[p] = v`: replaces one count and keeps the others. */
    function Set(p: PrayerName, v: int): (c: QadaCount)
      ensures c.Get(p) == v
      ensures forall q :: q != p ==> c.Get(q) == Get(q)
    {
      match p
      case Fajr => this.(fajr := v)
      case Dhuhr => this.(dhuhr := v)
      case Asr => this.(asr := v)
      case Maghrib => this.(maghrib := v)
      case Isha => this.(isha := v)
    }
  }

  datatype QadaPlan = QadaPlan(dailyTarget: int, priorityPrayer: PrayerName, startDate: string, completedToday: int)

  /** The six daily times as the calculator formats them ("HH:MM"). */
  datatype PrayerTimes = PrayerTimes(fajr: string, sunrise: string, dhuhr: string, asr: string, maghrib: string, isha: string)
  {
    /** The time of one of the five prayers. */
    function Of(p: PrayerName): string
    {
      match p
      case Fajr => fajr
      case Dhuhr => dhuhr
      case Asr => asr
      case Maghrib => maghrib
      case Isha => isha
    }
  }
}
