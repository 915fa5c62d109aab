/** The names table of src/services/asmaUlHusnaService.ts: 35 rows,
    numbered 1 to 30 and 95 to 99, in that order. */
module AsmaNames {
  import opened Wrappers

  /** One row of the table; the favourite flag is added by the service. */
  datatype NameRow = NameRow(
    number: int,
    arabic: string,
    transliteration: string,
    translation: string,
    meaning: string,
    benefit: Option<string>)

  const Table: seq<NameRow> := [
    NameRow(1, "الرَّحْمَنُ", "Ar-Rahman", "The Compassionate",
            "The One who has plenty of mercy for the believers and the blasphemers in this world.",
            Some("Reciting this name brings divine mercy and compassion.")),
    NameRow(2, "الرَّحِيمُ", "Ar-Rahim", "The Merciful",
            "The One who has plenty of mercy for the believers in the afterlife.",
            Some("Brings divine mercy and forgiveness.")),
    NameRow(3, "الْمَلِكُ", "Al-Malik", "The King",
            "The One with the complete dominion, the One whose dominion is clear from imperfection.",
            Some("Helps in gaining respect and authority.")),
    NameRow(4, "الْقُدُّوسُ", "Al-Quddus", "The Holy",
            "The One who is pure from any imperfection and clear from children and adversaries.",
            Some("Purifies the heart and soul from sins.")),
    NameRow(5, "السَّلاَمُ", "As-Salam", "The Peace",
            "The One who is free from every imperfection.",
            Some("Brings peace of mind and tranquility.")),
    NameRow(6, "الْمُؤْمِنُ", "Al-Mu'min", "The Guardian of Faith",
            "The One who witnessed for Himself that no one is God but Him.",
            Some("Strengthens faith and trust in Allah.")),
    NameRow(7, "الْمُهَيْمِنُ", "Al-Muhaymin", "The Protector",
            "The One who witnesses the saying and deeds of His creatures.",
            Some("Provides divine protection and safety.")),
    NameRow(8, "الْعَزِيزُ", "Al-Aziz", "The Mighty",
            "The One who is victorious and nobody can be victorious over Him.",
            Some("Grants strength and victory over difficulties.")),
    NameRow(9, "الْجَبَّارُ", "Al-Jabbar", "The Compeller",
            "The One who makes the creation do what He wants.",
            Some("Helps overcome obstacles and enemies.")),
    NameRow(10, "الْمُتَكَبِّرُ", "Al-Mutakabbir", "The Majestic",
            "The One who is greater than everything in status.",
            Some("Removes pride and arrogance from the heart.")),
    NameRow(11, "الْخَالِقُ", "Al-Khaliq", "The Creator",
            "The One who brings everything from non-existence to existence.",
            Some("Enhances creativity and innovation.")),
    NameRow(12, "الْبَارِئُ", "Al-Bari'", "The Originator",
            "The One who created the creation and made it free from any flaw.",
            Some("Helps in creating harmony and perfection.")),
    NameRow(13, "الْمُصَوِّرُ", "Al-Musawwir", "The Fashioner",
            "The One who shapes His creatures however He likes.",
            Some("Enhances artistic abilities and appreciation of beauty.")),
    NameRow(14, "الْغَفَّارُ", "Al-Ghaffar", "The Repeatedly Forgiving",
            "The One who forgives the sins of His slaves time and time again.",
            Some("Brings forgiveness for sins and mistakes.")),
    NameRow(15, "الْقَهَّارُ", "Al-Qahhar", "The Subduer",
            "The One who dominates all creation and they are subservient to His greatness.",
            Some("Helps overcome enemies and difficulties.")),
    NameRow(16, "الْوَهَّابُ", "Al-Wahhab", "The Bestower",
            "The One who continuously grants blessings without expecting anything in return.",
            Some("Attracts divine blessings and provisions.")),
    NameRow(17, "الرَّزَّاقُ", "Ar-Razzaq", "The Provider",
            "The One who provides sustenance to all His creation.",
            Some("Brings abundant sustenance and rizq.")),
    NameRow(18, "الْفَتَّاحُ", "Al-Fattah", "The Opener",
            "The One who opens all doors and solves all problems.",
            Some("Opens doors of opportunity and success.")),
    NameRow(19, "الْعَلِيمُ", "Al-Alim", "The All-Knowing",
            "The One who knows everything that was, is, and will be.",
            Some("Increases knowledge and wisdom.")),
    NameRow(20, "الْقَابِضُ", "Al-Qabid", "The Restrictor",
            "The One who constricts sustenance and expands it.",
            Some("Helps in self-control and discipline.")),
    NameRow(21, "الْبَاسِطُ", "Al-Basit", "The Expander",
            "The One who expands and increases sustenance.",
            Some("Brings expansion in wealth and happiness.")),
    NameRow(22, "الْخَافِضُ", "Al-Khafid", "The Abaser",
            "The One who lowers whoever He willed.",
            Some("Brings humility and defeats pride.")),
    NameRow(23, "الرَّافِعُ", "Ar-Rafi'", "The Exalter",
            "The One who raises whoever He willed.",
            Some("Elevates status and brings honor.")),
    NameRow(24, "الْمُعِزُّ", "Al-Mu'izz", "The Bestower of Honor",
            "The One who gives honor and might to whoever He willed.",
            Some("Brings honor and respect.")),
    NameRow(25, "الْمُذِلُّ", "Al-Mudhill", "The Humiliator",
            "The One who humiliates whoever He willed.",
            Some("Protection from humiliation and disgrace.")),
    NameRow(26, "السَّمِيعُ", "As-Sami'", "The All-Hearing",
            "The One who hears all sounds and voices.",
            Some("Prayers are heard and answered.")),
    NameRow(27, "الْبَصِيرُ", "Al-Basir", "The All-Seeing",
            "The One who sees all things whether they are hidden or apparent.",
            Some("Increases insight and spiritual vision.")),
    NameRow(28, "الْحَكَمُ", "Al-Hakam", "The Judge",
            "The One who judges between His creation.",
            Some("Brings justice and fair judgment.")),
    NameRow(29, "الْعَدْلُ", "Al-Adl", "The Just",
            "The One who is just in His judgment.",
            Some("Establishes justice and fairness.")),
    NameRow(30, "اللَّطِيفُ", "Al-Latif", "The Subtle",
            "The One who is gentle and kind to His slaves.",
            Some("Brings gentleness and ease in difficulties.")),
    NameRow(95, "النُّورُ", "An-Nur", "The Light",
            "The One who guides His creation to the right path.",
            Some("Brings spiritual enlightenment and guidance.")),
    NameRow(96, "الْهَادِي", "Al-Hadi", "The Guide",
            "The One who guides His creation to the truth.",
            Some("Provides guidance in all matters of life.")),
    NameRow(97, "الْبَدِيعُ", "Al-Badi'", "The Incomparable",
            "The One who created the creation in a way that has never been done before.",
            Some("Enhances creativity and originality.")),
    NameRow(98, "الْبَاقِي", "Al-Baqi", "The Everlasting",
            "The One who remains forever and does not perish.",
            Some("Brings permanence and lasting success.")),
    NameRow(99, "الصَّبُورُ", "As-Sabur", "The Patient",
            "The One who does not quickly punish the sinners.",
            Some("Develops patience and perseverance."))
  ]

  /** The table holds 35 rows numbered 1 to 30 and then 95 to 99. */
  lemma TableNumbers()
    ensures |Table| == 35
    ensures forall k :: 0 <= k < |Table| ==> Table[k].number == (if k < 30 then k + 1 else k + 65)
  {
  }
}
